/**
 The per-address connection limit over a shared Redis counter. Every await of a connection handler is a step, and
 the steps of all handlers interleave freely; this is one address, whose key no other address touches.
 `lives` counts the increments of every lifetime the key has had: bookkeeping for the theorems only.
 */
module ConnectLimit {
  import opened Common

  const CONNECT_RATE_WINDOW_MS := 60_000

  datatype Key = Missing | Counter(value: nat, expiresAt: Option<int>)

  // A handler's connection got number `current` of lifetime `life`.
  datatype Handler =
    | Expiring(life: nat, current: nat)   // EXPIRE is still to be sent
    | Counted(life: nat, current: nat)
    | Admitted(life: nat, current: nat)
    | Refused(life: nat, current: nat)
    | Opened(life: nat, current: nat)     // a Redis error after it was counted: connection allowed
    | FailedOpen                          // a Redis error before it was counted: connection allowed
    | Gone                                // its process died: connection lost

  datatype World = World(now: int, key: Key, lives: seq<nat>, handlers: map<nat, Handler>)

  // How a Redis command ends: with its reply, with an error, or with the death of the handler that waits for it. A
  // command that brings no reply may or may not have been executed.
  datatype Outcome = Replied | ReplyLost | NotExecuted | Died(executed: bool)

  predicate Executed(outcome: Outcome) {
    outcome.Replied? || outcome.ReplyLost? || (outcome.Died? && outcome.executed)
  }

  // Die is a death between commands.
  datatype Event =
    | Incr(handler: nat, outcome: Outcome)
    | Expire(handler: nat, outcome: Outcome)
    | Decide(handler: nat)
    | Die(handler: nat)
    | Tick(ms: nat)

  function Start(now: int): World {
    World(now, Missing, [], map[])
  }

  // The handler holds a number of some lifetime.
  predicate Holder(r: Handler) {
    !r.FailedOpen? && !r.Gone?
  }

  predicate AboutToExpire(w: World, h: nat) {
    h in w.handlers && w.handlers[h].Expiring?
  }

  // The lifetime and the number in it that the next executed INCR counts.
  function NextLife(w: World): nat {
    if w.key.Missing? || |w.lives| == 0 then |w.lives| else |w.lives| - 1
  }

  function NextNumber(w: World): nat {
    if w.key.Missing? then 1 else w.key.value + 1
  }

  // INCR as Redis executes it, and what becomes of the handler that sent it.
  function IncrStep(w: World, h: nat, r: Handler): World {
    match w.key
    case Missing => w.(key := Counter(1, None), lives := w.lives + [1], handlers := w.handlers[h := r])
    case Counter(value, expiresAt) =>
      if |w.lives| == 0 then w
      else
        var life := |w.lives| - 1;
        w.(key := Counter(value + 1, expiresAt), lives := w.lives[life := w.lives[life] + 1],
           handlers := w.handlers[h := r])
  }

  // EXPIRE as Redis executes it; on a missing key it does nothing.
  function ExpireStep(w: World): World {
    if w.key.Missing? then w else w.(key := w.key.(expiresAt := Some(w.now + CONNECT_RATE_WINDOW_MS)))
  }

  function Step(limit: nat, w: World, event: Event): World {
    match event
    case Incr(h, outcome) =>
      if h in w.handlers then w
      else
        var life, current := NextLife(w), NextNumber(w);
        match outcome {
          case Replied => IncrStep(w, h, if w.key.Missing? then Expiring(life, current) else Counted(life, current))
          case ReplyLost => IncrStep(w, h, Opened(life, current))
          case NotExecuted => w.(handlers := w.handlers[h := FailedOpen])
          case Died(executed) => if executed then IncrStep(w, h, Gone) else w.(handlers := w.handlers[h := Gone])
        }
    case Expire(h, outcome) =>
      if !AboutToExpire(w, h) then w
      else
        var Expiring(life, current) := w.handlers[h];
        var after := if Executed(outcome) then ExpireStep(w) else w;
        match outcome {
          case Replied => after.(handlers := w.handlers[h := Counted(life, current)])
          case Died(_) => after.(handlers := w.handlers[h := Gone])
          case _ => after.(handlers := w.handlers[h := Opened(life, current)])
        }
    case Decide(h) =>
      if h !in w.handlers || !w.handlers[h].Counted? then w
      else
        var Counted(life, current) := w.handlers[h];
        w.(handlers := w.handlers[h := if current > limit then Refused(life, current) else Admitted(life, current)])
    case Die(h) =>
      if h in w.handlers && (w.handlers[h].Expiring? || w.handlers[h].Counted?)
      then w.(handlers := w.handlers[h := Gone])
      else w
    case Tick(ms) =>
      var now := w.now + ms;
      if w.key.Counter? && w.key.expiresAt.Some? && w.key.expiresAt.value <= now then w.(now := now, key := Missing)
      else w.(now := now)
  }

  function Run(limit: nat, w: World, events: seq<Event>): World
    decreases |events|
  {
    if |events| == 0 then w else Step(limit, Run(limit, w, events[..|events| - 1]), events[|events| - 1])
  }

  predicate NoError(event: Event) {
    (event.Incr? || event.Expire? ==> event.outcome.Replied?) && !event.Die?
  }

  ghost predicate NoErrors(events: seq<Event>) {
    forall i | 0 <= i < |events| :: NoError(events[i])
  }

  /******* Invariant *******/

  predicate At(r: Handler, life: nat, current: nat) {
    Holder(r) && r.life == life && r.current == current
  }

  ghost predicate Holds(w: World, life: nat, current: nat) {
    exists h :: h in w.handlers && At(w.handlers[h], life, current)
  }

  // The counter has a TTL, or exactly one handler, the one that created it, is about to set it.
  ghost predicate TtlOk(w: World) {
    && (w.key.Counter? && w.key.expiresAt.None? ==>
          |w.lives| > 0 && exists h :: h in w.handlers && w.handlers[h] == Expiring(|w.lives| - 1, 1))
    && (w.key.Missing? || w.key.expiresAt.Some? ==> forall h | h in w.handlers :: !w.handlers[h].Expiring?)
    && (forall g, h | g in w.handlers && h in w.handlers && w.handlers[g].Expiring? && w.handlers[h].Expiring? ::
          g == h)
  }

  // Nobody else holds this number.
  ghost predicate Unheld(w: World, h: nat, life: nat, current: nat) {
    forall g | g in w.handlers && g != h :: !At(w.handlers[g], life, current)
  }

  // Within a lifetime no number is held by two handlers ...
  ghost predicate NumbersDistinct(w: World) {
    && (forall h | h in w.handlers && Holder(w.handlers[h]) ::
          w.handlers[h].life < |w.lives| && 1 <= w.handlers[h].current <= w.lives[w.handlers[h].life])
    && (forall h | h in w.handlers && Holder(w.handlers[h]) ::
          Unheld(w, h, w.handlers[h].life, w.handlers[h].current))
  }

  // ... and without errors each of the numbers 1, 2, ... is held by one.
  ghost predicate NumbersOk(w: World) {
    && NumbersDistinct(w)
    && (forall life, current | 0 <= life < |w.lives| && 1 <= current <= w.lives[life] :: Holds(w, life, current))
  }

  ghost predicate DecisionsOk(limit: nat, w: World) {
    forall h | h in w.handlers ::
      && (w.handlers[h].Admitted? ==> w.handlers[h].current <= limit)
      && (w.handlers[h].Refused? ==> w.handlers[h].current > limit)
  }

  ghost predicate KeyOk(w: World) {
    w.key.Counter? ==> |w.lives| > 0 && w.key.value == w.lives[|w.lives| - 1]
  }

  ghost predicate Inv(limit: nat, w: World) {
    KeyOk(w) && TtlOk(w) && NumbersOk(w) && DecisionsOk(limit, w)
  }

  // One handler moved, to a number nobody else holds or to none; the lifetimes only grew.
  lemma MoveKeepsDistinct(w: World, w': World, h: nat)
    requires NumbersDistinct(w)
    requires w'.handlers.Keys == w.handlers.Keys + {h}
    requires forall g | g in w.handlers && g != h :: w'.handlers[g] == w.handlers[g]
    requires |w.lives| <= |w'.lives| && forall l | 0 <= l < |w.lives| :: w.lives[l] <= w'.lives[l]
    requires
      var r := w'.handlers[h];
      Holder(r) ==> r.life < |w'.lives| && 1 <= r.current <= w'.lives[r.life] && Unheld(w, h, r.life, r.current)
    ensures NumbersDistinct(w')
  {
  }

  // A handler moved on without changing its number.
  lemma SameNumbers(w: World, w': World, h: nat)
    requires NumbersOk(w) && h in w.handlers && Holder(w.handlers[h]) && w'.lives == w.lives
    requires w'.handlers.Keys == w.handlers.Keys
    requires forall g | g in w.handlers && g != h :: w'.handlers[g] == w.handlers[g]
    requires At(w'.handlers[h], w.handlers[h].life, w.handlers[h].current)
    ensures NumbersOk(w')
  {
    MoveKeepsDistinct(w, w', h);
    forall life, current | 0 <= life < |w.lives| && 1 <= current <= w.lives[life] ensures Holds(w', life, current) {
      assert Holds(w, life, current);
      var g :| g in w.handlers && At(w.handlers[g], life, current);
      assert At(w'.handlers[g], life, current);
    }
  }

  // The new number is larger than any counted so far in its lifetime.
  lemma IncrKeepsDistinct(w: World, h: nat, r: Handler)
    requires NumbersDistinct(w) && KeyOk(w) && h !in w.handlers
    requires Holder(r) ==> At(r, NextLife(w), NextNumber(w))
    ensures NumbersDistinct(IncrStep(w, h, r)) && KeyOk(IncrStep(w, h, r))
  {
    MoveKeepsDistinct(w, IncrStep(w, h, r), h);
  }

  lemma IncrKeepsNumbers(w: World, h: nat, r: Handler)
    requires NumbersOk(w) && KeyOk(w) && h !in w.handlers && At(r, NextLife(w), NextNumber(w))
    ensures NumbersOk(IncrStep(w, h, r)) && KeyOk(IncrStep(w, h, r))
  {
    var w' := IncrStep(w, h, r);
    var last := |w'.lives| - 1;
    IncrKeepsDistinct(w, h, r);
    forall life, current | 0 <= life < |w'.lives| && 1 <= current <= w'.lives[life] ensures Holds(w', life, current) {
      if life == last && current == w'.lives[last] { assert At(w'.handlers[h], life, current); }
      else {
        assert Holds(w, life, current);
        var g :| g in w.handlers && At(w.handlers[g], life, current);
        assert At(w'.handlers[g], life, current);
      }
    }
  }

  lemma IncrKeepsTtl(limit: nat, w: World, h: nat)
    requires TtlOk(w) && KeyOk(w) && h !in w.handlers
    ensures TtlOk(Step(limit, w, Incr(h, Replied)))
  {
    var w' := Step(limit, w, Incr(h, Replied));
    if w.key.Missing? { assert w'.handlers[h] == Expiring(|w'.lives| - 1, 1); }
    else if w.key.expiresAt.None? {
      var g :| g in w.handlers && w.handlers[g] == Expiring(|w.lives| - 1, 1);
      assert w'.handlers[g] == Expiring(|w'.lives| - 1, 1);
    }
  }

  lemma ExpireKeepsInv(limit: nat, w: World, h: nat)
    requires Inv(limit, w) && h in w.handlers && w.handlers[h].Expiring?
    ensures Inv(limit, Step(limit, w, Expire(h, Replied)))
  {
    SameNumbers(w, Step(limit, w, Expire(h, Replied)), h);
  }

  lemma DecideKeepsInv(limit: nat, w: World, h: nat)
    requires Inv(limit, w) && h in w.handlers && w.handlers[h].Counted?
    ensures Inv(limit, Step(limit, w, Decide(h)))
  {
    var w' := Step(limit, w, Decide(h));
    SameNumbers(w, w', h);
    DecideKeepsTtl(limit, w, h);
  }

  lemma DecideKeepsTtl(limit: nat, w: World, h: nat)
    requires TtlOk(w) && h in w.handlers && w.handlers[h].Counted?
    ensures TtlOk(Step(limit, w, Decide(h)))
  {
    var w' := Step(limit, w, Decide(h));
    if w.key.Counter? && w.key.expiresAt.None? {
      var g :| g in w.handlers && w.handlers[g] == Expiring(|w.lives| - 1, 1);
      assert w'.handlers[g] == Expiring(|w'.lives| - 1, 1);
    }
  }

  lemma TickKeepsInv(limit: nat, w: World, ms: nat)
    requires Inv(limit, w)
    ensures Inv(limit, Step(limit, w, Tick(ms)))
  {
    var w' := Step(limit, w, Tick(ms));
    forall life, current | 0 <= life < |w.lives| && 1 <= current <= w.lives[life] ensures Holds(w', life, current) {
      assert Holds(w, life, current);
    }
  }

  lemma StepKeepsInv(limit: nat, w: World, event: Event)
    requires Inv(limit, w) && NoError(event)
    ensures Inv(limit, Step(limit, w, event))
  {
    match event
    case Incr(h, _) =>
      if h !in w.handlers {
        IncrKeepsNumbers(w, h, Step(limit, w, event).handlers[h]);
        IncrKeepsTtl(limit, w, h);
      }
    case Expire(h, _) => if AboutToExpire(w, h) { ExpireKeepsInv(limit, w, h); }
    case Decide(h) => if h in w.handlers && w.handlers[h].Counted? { DecideKeepsInv(limit, w, h); }
    case Tick(ms) => TickKeepsInv(limit, w, ms);
  }

  lemma {:induction false} RunKeepsInv(limit: nat, w: World, events: seq<Event>)
    requires Inv(limit, w) && NoErrors(events)
    ensures Inv(limit, Run(limit, w, events))
    decreases |events|
  {
    if |events| > 0 {
      RunKeepsInv(limit, w, events[..|events| - 1]);
      StepKeepsInv(limit, Run(limit, w, events[..|events| - 1]), events[|events| - 1]);
    }
  }

  /******* Theorems *******/

  /** Without Redis errors, under any interleaving, the counter has a TTL or exactly one EXPIRE on its way. */
  lemma TtlOrPendingExpire(limit: nat, start: int, events: seq<Event>)
    requires NoErrors(events)
    ensures
      var w := Run(limit, Start(start), events);
      w.key.Counter? ==>
        if w.key.expiresAt.Some? then forall h | h in w.handlers :: !w.handlers[h].Expiring?
        else
          |w.lives| > 0
          && exists h :: (h in w.handlers && w.handlers[h] == Expiring(|w.lives| - 1, 1)
                          && forall g | g in w.handlers && w.handlers[g].Expiring? :: g == h)
  {
    RunKeepsInv(limit, Start(start), events);
  }

  // The handlers that hold the numbers 1 .. m of a lifetime.
  function HoldersUpTo(w: World, life: nat, m: nat): set<nat> {
    set h | h in w.handlers && Holder(w.handlers[h]) && w.handlers[h].life == life && w.handlers[h].current <= m
  }

  lemma OneMoreHolder(w: World, life: nat, m: nat, h: nat)
    requires NumbersDistinct(w) && m > 0 && h in w.handlers && At(w.handlers[h], life, m)
    ensures HoldersUpTo(w, life, m) == HoldersUpTo(w, life, m - 1) + {h} && h !in HoldersUpTo(w, life, m - 1)
  {
    forall g | g in HoldersUpTo(w, life, m) && g != h ensures g in HoldersUpTo(w, life, m - 1) {
      assert !At(w.handlers[g], life, m);
    }
  }

  lemma {:induction false} HoldersCount(w: World, life: nat, m: nat)
    requires NumbersOk(w) && life < |w.lives| && m <= w.lives[life]
    ensures |HoldersUpTo(w, life, m)| == m
  {
    if m == 0 { assert HoldersUpTo(w, life, 0) == {}; }
    else {
      HoldersCount(w, life, m - 1);
      assert Holds(w, life, m);
      var h :| h in w.handlers && At(w.handlers[h], life, m);
      OneMoreHolder(w, life, m, h);
    }
  }

  function AdmittedIn(w: World, life: nat): set<nat> {
    set h | h in w.handlers && w.handlers[h].Admitted? && w.handlers[h].life == life
  }

  ghost predicate AllDecided(w: World, life: nat) {
    forall h | h in w.handlers && Holder(w.handlers[h]) && w.handlers[h].life == life ::
      w.handlers[h].Admitted? || w.handlers[h].Refused?
  }

  /** Of the n connections counted in a lifetime, exactly min(n, limit) are admitted once all have been decided. */
  lemma AdmitsExactly(limit: nat, start: int, events: seq<Event>, life: nat)
    requires NoErrors(events) && life < |Run(limit, Start(start), events).lives|
    requires AllDecided(Run(limit, Start(start), events), life)
    ensures
      var w := Run(limit, Start(start), events);
      |AdmittedIn(w, life)| == if w.lives[life] <= limit then w.lives[life] else limit
  {
    RunKeepsInv(limit, Start(start), events);
    var w := Run(limit, Start(start), events);
    var m := if w.lives[life] <= limit then w.lives[life] else limit;
    HoldersCount(w, life, m);
    assert AdmittedIn(w, life) == HoldersUpTo(w, life, m);
  }

  /******* Redis errors and deaths *******/

  lemma StepKeepsKeyOk(limit: nat, w: World, event: Event)
    requires KeyOk(w)
    ensures KeyOk(Step(limit, w, event))
  {
  }

  // Between its INCR and its end a handler keeps its number or gives it up.
  lemma HandlerStep(limit: nat, w: World, event: Event, h: nat)
    requires (event.Expire? || event.Decide? || event.Die?) && event.handler == h
    ensures
      var w' := Step(limit, w, event);
      && w'.lives == w.lives && w'.handlers.Keys == w.handlers.Keys
      && (forall g | g in w.handlers && g != h :: w'.handlers[g] == w.handlers[g])
      && (h in w.handlers && Holder(w'.handlers[h]) ==>
            Holder(w.handlers[h]) && At(w'.handlers[h], w.handlers[h].life, w.handlers[h].current))
  {
  }

  lemma HandlerStepKeepsDistinct(w: World, w': World, h: nat)
    requires NumbersDistinct(w) && w'.lives == w.lives && w'.handlers.Keys == w.handlers.Keys
    requires forall g | g in w.handlers && g != h :: w'.handlers[g] == w.handlers[g]
    requires h in w.handlers && Holder(w'.handlers[h]) ==>
      Holder(w.handlers[h]) && At(w'.handlers[h], w.handlers[h].life, w.handlers[h].current)
    ensures NumbersDistinct(w')
  {
    if h in w.handlers { MoveKeepsDistinct(w, w', h); }
    else { assert w'.handlers == w.handlers; }
  }

  lemma IncrStepKeepsDistinct(limit: nat, w: World, h: nat, outcome: Outcome)
    requires NumbersDistinct(w) && KeyOk(w)
    ensures NumbersDistinct(Step(limit, w, Incr(h, outcome)))
  {
    var w' := Step(limit, w, Incr(h, outcome));
    if h !in w.handlers {
      if Executed(outcome) { IncrKeepsDistinct(w, h, w'.handlers[h]); }
      else { MoveKeepsDistinct(w, w', h); }
    }
  }

  lemma StepKeepsDistinct(limit: nat, w: World, event: Event)
    requires NumbersDistinct(w) && KeyOk(w)
    ensures NumbersDistinct(Step(limit, w, event))
  {
    match event
    case Incr(h, outcome) => IncrStepKeepsDistinct(limit, w, h, outcome);
    case Tick(_) => assert Step(limit, w, event).handlers == w.handlers;
    case _ =>
      HandlerStep(limit, w, event, event.handler);
      HandlerStepKeepsDistinct(w, Step(limit, w, event), event.handler);
  }

  lemma StepKeepsDecisions(limit: nat, w: World, event: Event)
    requires DecisionsOk(limit, w)
    ensures DecisionsOk(limit, Step(limit, w, event))
  {
  }

  lemma {:induction false} RunKeepsDistinct(limit: nat, w: World, events: seq<Event>)
    requires NumbersDistinct(w) && KeyOk(w) && DecisionsOk(limit, w)
    ensures
      var w' := Run(limit, w, events);
      NumbersDistinct(w') && KeyOk(w') && DecisionsOk(limit, w')
    decreases |events|
  {
    if |events| > 0 {
      RunKeepsDistinct(limit, w, events[..|events| - 1]);
      StepKeepsDistinct(limit, Run(limit, w, events[..|events| - 1]), events[|events| - 1]);
      StepKeepsKeyOk(limit, Run(limit, w, events[..|events| - 1]), events[|events| - 1]);
      StepKeepsDecisions(limit, Run(limit, w, events[..|events| - 1]), events[|events| - 1]);
    }
  }

  lemma {:induction false} HoldersAtMost(w: World, life: nat, m: nat)
    requires NumbersDistinct(w)
    ensures |HoldersUpTo(w, life, m)| <= m
  {
    if m == 0 { assert HoldersUpTo(w, life, 0) == {}; }
    else {
      HoldersAtMost(w, life, m - 1);
      if h :| h in w.handlers && At(w.handlers[h], life, m) { OneMoreHolder(w, life, m, h); }
      else { assert HoldersUpTo(w, life, m) == HoldersUpTo(w, life, m - 1); }
    }
  }

  // A counted connection that was let in: admitted, or let through by an error after it was counted.
  predicate LetIn(w: World, h: nat) {
    h in w.handlers && (w.handlers[h].Admitted? || w.handlers[h].Opened?)
  }

  predicate PastLimit(limit: nat, w: World, h: nat) {
    LetIn(w, h) && w.handlers[h].current > limit
  }

  // An INCR that counts past the limit, and whose reply its handler never gets.
  predicate LosesVerdict(limit: nat, w: World, event: Event, h: nat) {
    event == Incr(h, ReplyLost) && h !in w.handlers && NextNumber(w) > limit
  }

  /**
   Every way in and out: a counted connection is let in when its number is within the limit, or by an error after it was
   counted; it is refused past the limit; an error before it was counted lets it in uncounted.
   */
  lemma VerdictsExactly(limit: nat, w: World, event: Event, h: nat)
    requires KeyOk(w)
    ensures
      var w' := Step(limit, w, event);
      && (LetIn(w', h) <==>
            || LetIn(w, h)
            || (event == Decide(h) && h in w.handlers && w.handlers[h].Counted? && w.handlers[h].current <= limit)
            || (event == Incr(h, ReplyLost) && h !in w.handlers)
            || (AboutToExpire(w, h) && (event == Expire(h, ReplyLost) || event == Expire(h, NotExecuted))))
      && (h in w'.handlers && w'.handlers[h].Refused? <==>
            || (h in w.handlers && w.handlers[h].Refused?)
            || (event == Decide(h) && h in w.handlers && w.handlers[h].Counted? && w.handlers[h].current > limit))
      && (h in w'.handlers && w'.handlers[h].FailedOpen? <==>
            || (h in w.handlers && w.handlers[h].FailedOpen?)
            || (event == Incr(h, NotExecuted) && h !in w.handlers))
  {
  }

  // Between errors the numbers decide: who is admitted is within the limit, and so is a creator.
  ghost predicate VerdictsOk(limit: nat, w: World) {
    forall h | h in w.handlers && (w.handlers[h].Admitted? || w.handlers[h].Expiring?) ::
      w.handlers[h].current <= limit
  }

  lemma StepKeepsVerdicts(limit: nat, w: World, event: Event)
    requires limit >= 1 && KeyOk(w) && VerdictsOk(limit, w)
    ensures VerdictsOk(limit, Step(limit, w, event))
    ensures forall h :: PastLimit(limit, Step(limit, w, event), h) <==>
              PastLimit(limit, w, h) || LosesVerdict(limit, w, event, h)
  {
  }

  lemma {:induction false} RunKeepsVerdicts(limit: nat, w: World, events: seq<Event>)
    requires limit >= 1 && KeyOk(w) && VerdictsOk(limit, w)
    ensures KeyOk(Run(limit, w, events)) && VerdictsOk(limit, Run(limit, w, events))
    decreases |events|
  {
    if |events| > 0 {
      var before := events[..|events| - 1];
      RunKeepsVerdicts(limit, w, before);
      StepKeepsVerdicts(limit, Run(limit, w, before), events[|events| - 1]);
      StepKeepsKeyOk(limit, Run(limit, w, before), events[|events| - 1]);
    }
  }

  ghost predicate LostVerdict(limit: nat, w: World, events: seq<Event>, h: nat) {
    exists k :: 0 <= k < |events| && LosesVerdict(limit, Run(limit, w, events[..k]), events[k], h)
  }

  lemma LostVerdictSnoc(limit: nat, w: World, events: seq<Event>, h: nat)
    requires |events| > 0
    ensures
      var before := events[..|events| - 1];
      LostVerdict(limit, w, events, h) <==>
      LostVerdict(limit, w, before, h) || LosesVerdict(limit, Run(limit, w, before), events[|events| - 1], h)
  {
    var n := |events| - 1;
    forall k | 0 <= k < n ensures events[..n][..k] == events[..k] {}
    if LostVerdict(limit, w, events[..n], h) {
      var k :| 0 <= k < n && LosesVerdict(limit, Run(limit, w, events[..n][..k]), events[..n][k], h);
      assert LosesVerdict(limit, Run(limit, w, events[..k]), events[k], h);
    }
  }

  /**
   Over any run, a connection counted past the limit is let in if and only if the reply to the INCR that counted it
   was lost: the error handler lets it through.
   */
  lemma {:induction false} PastLimitExactly(limit: nat, start: int, events: seq<Event>, h: nat)
    requires limit >= 1
    ensures PastLimit(limit, Run(limit, Start(start), events), h) <==> LostVerdict(limit, Start(start), events, h)
    decreases |events|
  {
    if |events| > 0 {
      var before := events[..|events| - 1];
      PastLimitExactly(limit, start, before, h);
      RunKeepsVerdicts(limit, Start(start), before);
      StepKeepsVerdicts(limit, Run(limit, Start(start), before), events[|events| - 1]);
      LostVerdictSnoc(limit, Start(start), events, h);
    }
  }

  function LetInOf(w: World, life: nat): set<nat> {
    set h | h in w.handlers && LetIn(w, h) && w.handlers[h].life == life
  }

  function PastLimitOf(limit: nat, w: World, life: nat): set<nat> {
    set h | h in w.handlers && PastLimit(limit, w, h) && w.handlers[h].life == life
  }

  /**
   Whatever fails or dies, of the connections counted in a lifetime at most limit are admitted, and at most limit are
   let in besides those past the limit whose reply was lost.
   */
  lemma LetInAtMost(limit: nat, start: int, events: seq<Event>, life: nat)
    ensures
      var w := Run(limit, Start(start), events);
      && |AdmittedIn(w, life)| <= limit
      && |LetInOf(w, life)| <= limit + |PastLimitOf(limit, w, life)|
  {
    RunKeepsDistinct(limit, Start(start), events);
    var w := Run(limit, Start(start), events);
    SubsetIsSmaller(AdmittedIn(w, life), HoldersUpTo(w, life, limit));
    var within := LetInOf(w, life) - PastLimitOf(limit, w, life);
    HoldersAtMost(w, life, limit);
    SubsetIsSmaller(within, HoldersUpTo(w, life, limit));
    assert LetInOf(w, life) == within + PastLimitOf(limit, w, life);
  }

  // One connection within the limit of one, and two more whose replies are lost
  const LOST_REPLIES := [
    Incr(0, Replied), Expire(0, Replied), Decide(0), Incr(1, ReplyLost), Incr(2, ReplyLost)
  ]

  // The world after these events: three counted, all let in.
  function ThreeLetIn(start: int): World {
    World(start, Counter(3, Some(start + CONNECT_RATE_WINDOW_MS)), [3],
          map[0 := Admitted(0, 1), 1 := Opened(0, 2), 2 := Opened(0, 3)])
  }

  lemma OneAdmitted(start: int)
    ensures
      Run(1, Start(start), LOST_REPLIES[..3])
      == World(start, Counter(1, Some(start + CONNECT_RATE_WINDOW_MS)), [1], map[0 := Admitted(0, 1)])
  {
    var es, ttl := LOST_REPLIES, Some(start + CONNECT_RATE_WINDOW_MS);
    assert es[..0] == [];
    RunNext(1, Start(start), es, 0);
    assert Run(1, Start(start), es[..1]) == World(start, Counter(1, None), [1], map[0 := Expiring(0, 1)]);
    RunNext(1, Start(start), es, 1);
    assert Run(1, Start(start), es[..2]) == World(start, Counter(1, ttl), [1], map[0 := Counted(0, 1)]);
    RunNext(1, Start(start), es, 2);
  }

  lemma LostRepliesRun(start: int)
    ensures Run(1, Start(start), LOST_REPLIES) == ThreeLetIn(start)
  {
    var es, ttl := LOST_REPLIES, Some(start + CONNECT_RATE_WINDOW_MS);
    assert es[..5] == es;
    OneAdmitted(start);
    RunNext(1, Start(start), es, 3);
    assert Run(1, Start(start), es[..4])
        == World(start, Counter(2, ttl), [2], map[0 := Admitted(0, 1), 1 := Opened(0, 2)]);
    RunNext(1, Start(start), es, 4);
  }

  /** An input on which a limit of one lets three counted connections in. */
  lemma LostRepliesLetMoreIn(start: int)
    ensures
      var w := Run(1, Start(start), LOST_REPLIES);
      w.lives == [3] && LetInOf(w, 0) == {0, 1, 2} && PastLimitOf(1, w, 0) == {1, 2}
  {
    LostRepliesRun(start);
    var w := ThreeLetIn(start);
    assert LetInOf(w, 0) == {0, 1, 2} && PastLimitOf(1, w, 0) == {1, 2};
  }

  lemma RunNext(limit: nat, w: World, events: seq<Event>, k: nat)
    requires k < |events|
    ensures Run(limit, w, events[..k + 1]) == Step(limit, Run(limit, w, events[..k]), events[k])
  {
    assert events[..k + 1][..k] == events[..k];
  }

  // No TTL, and nobody left to set one.
  ghost predicate Stuck(w: World) {
    && w.key.Counter? && w.key.expiresAt.None? && |w.lives| > 0
    && forall h :: !AboutToExpire(w, h)
  }

  // Under errors: at most one EXPIRE is pending, and only while the key has no TTL.
  ghost predicate PendingOk(w: World) {
    && (w.key.Counter? ==> |w.lives| > 0)
    && (forall h | AboutToExpire(w, h) :: w.key.Counter? && w.key.expiresAt.None?)
    && (forall g, h | AboutToExpire(w, g) && AboutToExpire(w, h) :: g == h)
  }

  // Only the handler that created the key comes to owe an EXPIRE; it owes it until it sends it or dies.
  lemma PendingAfterStep(limit: nat, w: World, event: Event, h: nat)
    requires w.key.Counter? ==> |w.lives| > 0
    ensures AboutToExpire(Step(limit, w, event), h) <==>
      || (AboutToExpire(w, h) && event != Event.Die(h) && !(event.Expire? && event.handler == h))
      || (event == Incr(h, Replied) && h !in w.handlers && w.key.Missing?)
  {
  }

  lemma {:induction false} RunKeepsPendingOk(limit: nat, w: World, events: seq<Event>)
    requires PendingOk(w)
    ensures PendingOk(Run(limit, w, events))
    decreases |events|
  {
    if |events| > 0 {
      RunKeepsPendingOk(limit, w, events[..|events| - 1]);
      StepKeepsPendingOk(limit, Run(limit, w, events[..|events| - 1]), events[|events| - 1]);
    }
  }

  lemma StepKeepsPendingOk(limit: nat, w: World, event: Event)
    requires PendingOk(w)
    ensures PendingOk(Step(limit, w, event))
  {
    forall h { PendingAfterStep(limit, w, event, h); }
  }

  /**
   The TTL is set once: whatever fails or dies, it never changes while the key's lifetime lasts.
   */
  lemma TtlNeverExtended(limit: nat, start: int, events: seq<Event>, event: Event)
    requires var key := Run(limit, Start(start), events).key; key.Counter? && key.expiresAt.Some?
    ensures
      var w := Run(limit, Start(start), events);
      var w' := Step(limit, w, event);
      if w'.key.Counter? then w'.key.expiresAt == w.key.expiresAt && |w'.lives| == |w.lives|
      else w.key.expiresAt.value <= w'.now
  {
    RunKeepsPendingOk(limit, Start(start), events);
  }

  /** Exactly an executed INCR of a new handler counts, one at a time, the first one creating the key. */
  lemma CountsExactly(limit: nat, w: World, event: Event)
    requires KeyOk(w)
    ensures
      var w' := Step(limit, w, event);
      if event.Incr? && event.handler !in w.handlers
         && (event.outcome == Replied || event.outcome == ReplyLost || event.outcome == Died(true)) then
        w'.key == if w.key.Missing? then Counter(1, None) else Counter(w.key.value + 1, w.key.expiresAt)
      else
        && w'.lives == w.lives
        && (!event.Tick? ==> (w'.key.Counter? <==> w.key.Counter?))
        && (w'.key.Counter? ==> w.key.Counter? && w'.key.value == w.key.value)
  {
  }

  /** Only a tick takes time. */
  lemma ClockSteps(limit: nat, w: World, event: Event)
    ensures Step(limit, w, event).now == w.now + if event.Tick? then event.ms else 0
  {
  }

  // The lifetime whose EXPIRE was executed at moment `at`, as long as it lasts and afterwards.
  ghost predicate LivesUntil(w: World, life: nat, at: int) {
    && PendingOk(w) && |w.lives| > life
    && (w.now < at + 60_000 ==> w.key.Counter? && w.key.expiresAt == Some(at + 60_000) && |w.lives| == life + 1)
    && (w.now >= at + 60_000 ==> w.key.Missing? || |w.lives| > life + 1)
  }

  lemma StepKeepsLivesUntil(limit: nat, w: World, event: Event, life: nat, at: int)
    requires LivesUntil(w, life, at)
    ensures LivesUntil(Step(limit, w, event), life, at)
  {
    StepKeepsPendingOk(limit, w, event);
  }

  lemma {:induction false} RunKeepsLivesUntil(limit: nat, w: World, events: seq<Event>, life: nat, at: int)
    requires LivesUntil(w, life, at)
    ensures LivesUntil(Run(limit, w, events), life, at)
    decreases |events|
  {
    if |events| > 0 {
      RunKeepsLivesUntil(limit, w, events[..|events| - 1], life, at);
      StepKeepsLivesUntil(limit, Run(limit, w, events[..|events| - 1]), events[|events| - 1], life, at);
    }
  }

  /** A lifetime lasts exactly sixty seconds from the execution of its EXPIRE, whatever happens in between. */
  lemma LivesSixtySeconds(limit: nat, start: int, events: seq<Event>, h: nat, outcome: Outcome, more: seq<Event>)
    requires AboutToExpire(Run(limit, Start(start), events), h)
    requires outcome == Replied || outcome == ReplyLost || outcome == Died(true)
    ensures
      var w := Run(limit, Start(start), events);
      var x := Run(limit, Step(limit, w, Expire(h, outcome)), more);
      x.key.Counter? && |x.lives| == |w.lives| <==> x.now < w.now + 60_000
  {
    var w := Run(limit, Start(start), events);
    RunKeepsPendingOk(limit, Start(start), events);
    StepKeepsPendingOk(limit, w, Expire(h, outcome));
    RunKeepsLivesUntil(limit, Step(limit, w, Expire(h, outcome)), more, |w.lives| - 1, w.now);
  }

  // What strands the key: the one command, or the one handler, that would have given it a TTL is lost.
  predicate Strands(w: World, event: Event) {
    match event
    case Incr(h, outcome) => h !in w.handlers && w.key.Missing? && Executed(outcome) && !outcome.Replied?
    case Expire(h, outcome) => AboutToExpire(w, h) && !Executed(outcome)
    case Die(h) => AboutToExpire(w, h)
    case _ => false
  }

  /**
   In any reachable state, errors and deaths included, a step leaves the key stuck exactly when it was stuck, or the
   creator's EXPIRE was not executed, or the reply to the creating INCR or the creating handler was lost.
   */
  lemma StuckExactly(limit: nat, start: int, events: seq<Event>, event: Event)
    ensures
      var w := Run(limit, Start(start), events);
      Stuck(Step(limit, w, event)) <==> Stuck(w) || Strands(w, event)
  {
    RunKeepsPendingOk(limit, Start(start), events);
    StuckAfterStep(limit, Run(limit, Start(start), events), event);
  }

  lemma StuckAfterStep(limit: nat, w: World, event: Event)
    requires PendingOk(w)
    ensures Stuck(Step(limit, w, event)) <==> Stuck(w) || Strands(w, event)
  {
    forall h { PendingAfterStep(limit, w, event, h); }
    if !Stuck(w) && w.key.Counter? && w.key.expiresAt.None? { var h :| AboutToExpire(w, h); }
  }

  // The key has been stuck since w: the count has only grown, and the numbers admit no one who came after w.
  ghost predicate StuckSince(limit: nat, w: World, x: World) {
    && Stuck(x) && w.key.Counter? && x.key.value >= w.key.value && |x.lives| == |w.lives|
    && w.handlers.Keys <= x.handlers.Keys
    && forall h | h in x.handlers && h !in w.handlers ::
         !x.handlers[h].Admitted? && (x.handlers[h].Counted? ==> x.handlers[h].current > limit)
  }

  lemma StepKeepsStuckSince(limit: nat, w: World, x: World, event: Event)
    requires StuckSince(limit, w, x) && w.key.value >= limit
    ensures StuckSince(limit, w, Step(limit, x, event))
    ensures forall h | h !in w.handlers ::
              LetIn(Step(limit, x, event), h) <==> LetIn(x, h) || LosesVerdict(limit, x, event, h)
  {
    forall h { PendingAfterStep(limit, x, event, h); }
  }

  /**
   Once stuck, the key never expires again and the count only grows; a connection counted after it reached the limit is
   let in if and only if the reply to its INCR is lost, whatever else happens.
   */
  lemma {:induction false} StuckForGood(limit: nat, w: World, events: seq<Event>)
    requires Stuck(w) && w.key.value >= limit
    ensures StuckSince(limit, w, Run(limit, w, events))
    ensures forall h | h !in w.handlers :: LetIn(Run(limit, w, events), h) <==> LostVerdict(limit, w, events, h)
    decreases |events|
  {
    if |events| > 0 {
      var before := events[..|events| - 1];
      StuckForGood(limit, w, before);
      StepKeepsStuckSince(limit, w, Run(limit, w, before), events[|events| - 1]);
      forall h { LostVerdictSnoc(limit, w, events, h); }
    }
  }
}

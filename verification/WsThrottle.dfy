/** The per-socket, per-event fixed-window throttle. */
module WsThrottle {
  import opened Common

  datatype Options = Options(limit: int, windowMs: int)

  datatype Entry = Entry(count: nat, resetAt: int)

  type State = map<string, Entry>

  // The entry after an event, and whether the event is let through.
  function Hit(entry: Option<Entry>, now: int, options: Options): (Entry, bool) {
    if entry.None? || entry.value.resetAt <= now then (Entry(1, now + options.windowMs), true)
    else (Entry(entry.value.count + 1, entry.value.resetAt), entry.value.count + 1 <= options.limit)
  }

  function Lookup(state: State, event: string): Option<Entry> {
    if event in state then Some(state[event]) else None
  }

  // The guard of one socket. `options` is what the handler of the event declares, if it declares anything.
  class Guard {
    var state: State

    constructor ()
      ensures state == map[]
    {
      state := map[];
    }

    method CanActivate(event: string, now: int, options: Option<Options>) returns (allowed: bool)
      modifies this
      ensures options.None? ==> allowed && state == old(state)
      ensures options.Some? ==>
        var (entry, ok) := Hit(Lookup(old(state), event), now, options.value);
        state == old(state)[event := entry] && allowed == ok
    {
      if options.None? { return true; }
      if event !in state || state[event].resetAt <= now {
        state := state[event := Entry(1, now + options.value.windowMs)];
        return true;
      }
      state := state[event := state[event].(count := state[event].count + 1)];
      allowed := state[event].count <= options.value.limit;
    }
  }

  /******* One socket's whole run *******/

  datatype Event = Event(name: string, at: int)

  // Every handler's options
  type Handlers = string -> Options

  function StateAfter(handlers: Handlers, trace: seq<Event>): State {
    if |trace| == 0 then map[]
    else
      var e := trace[|trace| - 1];
      var before := StateAfter(handlers, trace[..|trace| - 1]);
      before[e.name := Hit(Lookup(before, e.name), e.at, handlers(e.name)).0]
  }

  // Whether the k-th event is let through.
  function Allowed(handlers: Handlers, trace: seq<Event>, k: nat): bool
    requires k < |trace|
  {
    Hit(Lookup(StateAfter(handlers, trace[..k]), trace[k].name), trace[k].at, handlers(trace[k].name)).1
  }

  /******* One event name *******/

  function Times(trace: seq<Event>, name: string): seq<int> {
    if |trace| == 0 then []
    else if trace[|trace| - 1].name == name then Times(trace[..|trace| - 1], name) + [trace[|trace| - 1].at]
    else Times(trace[..|trace| - 1], name)
  }

  function EntryAfter(options: Options, times: seq<int>): Option<Entry> {
    if |times| == 0 then None
    else Some(Hit(EntryAfter(options, times[..|times| - 1]), times[|times| - 1], options).0)
  }

  function Accepts(options: Options, times: seq<int>, k: nat): bool
    requires k < |times|
  {
    Hit(EntryAfter(options, times[..k]), times[k], options).1
  }

  /** Event names never affect each other: an event's fate depends on the earlier events of its own name only. */
  lemma {:induction false} NamesAreIndependent(handlers: Handlers, trace: seq<Event>, name: string)
    ensures Lookup(StateAfter(handlers, trace), name) == EntryAfter(handlers(name), Times(trace, name))
  {
    if |trace| > 0 {
      var n := |trace| - 1;
      NamesAreIndependent(handlers, trace[..n], name);
      var times := Times(trace[..n], name);
      assert (times + [trace[n].at])[..|times|] == times;
    }
  }

  /** The k-th event is let through exactly when its own name's throttle accepts it. */
  lemma AllowedByItsOwnName(handlers: Handlers, trace: seq<Event>, k: nat)
    requires k < |trace|
    ensures
      var name := trace[k].name;
      var times := Times(trace[..k + 1], name);
      && times == Times(trace[..k], name) + [trace[k].at]
      && Allowed(handlers, trace, k) == Accepts(handlers(name), times, |times| - 1)
  {
    var name := trace[k].name;
    NamesAreIndependent(handlers, trace[..k], name);
    assert trace[..k + 1][..k] == trace[..k];
    var times := Times(trace[..k], name);
    assert (times + [trace[k].at])[..|times|] == times;
  }

  /******* Counting *******/

  ghost predicate Monotone(times: seq<int>) {
    forall i, j | 0 <= i < j < |times| :: times[i] <= times[j]
  }

  // A window lets its first event through whatever the limit is.
  function Cap(options: Options): nat {
    if options.limit < 1 then 1 else options.limit
  }

  // Accepted events with a <= time < b.
  function AcceptedIn(options: Options, times: seq<int>, a: int, b: int): nat {
    if |times| == 0 then 0
    else
      var n := |times| - 1;
      AcceptedIn(options, times[..n], a, b) + if a <= times[n] < b && Accepts(options, times, n) then 1 else 0
  }

  // Index of the event that opened the current window.
  function Opening(options: Options, times: seq<int>): nat
    requires |times| > 0
    ensures Opening(options, times) < |times|
  {
    var n := |times| - 1;
    var entry := EntryAfter(options, times[..n]);
    if entry.None? || entry.value.resetAt <= times[n] then n else Opening(options, times[..n])
  }

  // Events accepted since the current window was opened.
  function AcceptedSinceOpening(options: Options, times: seq<int>): nat {
    if |times| == 0 then 0
    else
      var n := |times| - 1;
      var accepted := if Accepts(options, times, n) then 1 else 0;
      if Opening(options, times) == n then accepted
      else AcceptedSinceOpening(options, times[..n]) + accepted
  }

  function Least(a: int, b: int): int { if a <= b then a else b }

  /**
   In every run the current window was opened by an event at most windowMs ago, its counter is the number of events
   since, and the accepted ones are the first Cap of them.
   */
  lemma {:induction false} WindowInvariant(options: Options, times: seq<int>)
    requires |times| > 0 && Monotone(times)
    ensures
      var n := |times| - 1;
      var o := Opening(options, times);
      var entry := EntryAfter(options, times).value;
      && entry.resetAt == times[o] + options.windowMs
      && entry.count == n - o + 1
      && AcceptedSinceOpening(options, times) == Least(entry.count, Cap(options))
      && (o < n ==> times[n] < entry.resetAt)
  {
    var n := |times| - 1;
    if Opening(options, times) < n { WindowInvariant(options, times[..n]); }
  }

  /**
   An event is rejected exactly when the window it falls in, opened less than windowMs ago, has already accepted
   exactly Cap events.
   */
  lemma RejectedExactly(options: Options, times: seq<int>, k: nat)
    requires k < |times| && Monotone(times)
    ensures !Accepts(options, times, k) <==>
      && k > 0
      && times[k] < times[Opening(options, times[..k])] + options.windowMs
      && AcceptedSinceOpening(options, times[..k]) == Cap(options)
  {
    if k > 0 { WindowInvariant(options, times[..k]); }
  }

  // An interval that holds the whole current window: what it accepted before the window opened, and since.
  lemma {:induction false} SplitAtOpening(options: Options, times: seq<int>, a: int, b: int)
    requires |times| > 0 && Monotone(times)
    requires a <= times[Opening(options, times)] && times[|times| - 1] < b
    ensures AcceptedIn(options, times, a, b)
            == AcceptedIn(options, times[..Opening(options, times)], a, b) + AcceptedSinceOpening(options, times)
  {
    var n := |times| - 1;
    var o := Opening(options, times);
    if o < n {
      SplitAtOpening(options, times[..n], a, b);
      assert times[..n][..o] == times[..o];
    }
  }

  lemma {:induction false} NoneAccepted(options: Options, times: seq<int>, a: int, b: int)
    ensures AcceptedIn(options, times, a, b) == 0 <==>
            forall i | 0 <= i < |times| && a <= times[i] < b :: !Accepts(options, times, i)
  {
    if |times| > 0 {
      var n := |times| - 1;
      NoneAccepted(options, times[..n], a, b);
      forall i | 0 <= i < n ensures Accepts(options, times[..n], i) == Accepts(options, times, i) {
        assert times[..n][..i] == times[..i];
      }
    }
  }

  // An event of an earlier window was let through less than windowMs before event k.
  ghost predicate EarlierWindowOverlaps(options: Options, times: seq<int>, k: nat)
    requires 0 < k < |times|
  {
    exists i :: 0 <= i < Opening(options, times[..k]) && times[k] - options.windowMs < times[i]
                && Accepts(options, times, i)
  }

  /**
   A rejected event follows at least Cap events accepted within the preceding windowMs, and exactly Cap if and only if
   no earlier window reaches into that time.
   */
  lemma RejectedAfterExactly(options: Options, times: seq<int>, k: nat)
    requires k < |times| && Monotone(times) && !Accepts(options, times, k)
    ensures k > 0
    ensures
      var accepted := AcceptedIn(options, times[..k], times[k] - options.windowMs + 1, times[k] + 1);
      && accepted >= Cap(options)
      && (accepted == Cap(options) <==> !EarlierWindowOverlaps(options, times, k))
  {
    RejectedExactly(options, times, k);
    var a, b, o := times[k] - options.windowMs + 1, times[k] + 1, Opening(options, times[..k]);
    SplitAtOpening(options, times[..k], a, b);
    assert times[..k][..o] == times[..o];
    NoneAccepted(options, times[..o], a, b);
    forall i | 0 <= i < o ensures Accepts(options, times[..o], i) == Accepts(options, times, i) {
      assert times[..o][..i] == times[..i];
    }
  }

  // Of the events in [a, b), those of windows opened before a number less than Cap, those of the first window opened
  // in it at most Cap; no second window fits.
  lemma {:induction false} IntervalBound(options: Options, times: seq<int>, a: int)
    requires Monotone(times) && |times| > 0
    ensures
      var accepted := AcceptedIn(options, times, a, a + options.windowMs);
      var o := Opening(options, times);
      && (times[|times| - 1] < a ==> accepted == 0)
      && (times[o] < a ==> accepted <= Least(EntryAfter(options, times).value.count, Cap(options)) - 1)
      && (a <= times[o] < a + options.windowMs ==>
            accepted <= Cap(options) - 1 + Least(EntryAfter(options, times).value.count, Cap(options)))
      && accepted <= 2 * Cap(options) - 1
  {
    var n := |times| - 1;
    var o := Opening(options, times);
    WindowInvariant(options, times);
    if n == 0 { assert times[..0] == []; }
    else {
      WindowInvariant(options, times[..n]);
      IntervalBound(options, times[..n], a);
    }
  }

  /**
   Any half-open interval of windowMs holds at most 2 * limit - 1 accepted events (one, if the limit is below 1).
   */
  lemma AnyIntervalBound(options: Options, times: seq<int>, a: int)
    requires Monotone(times)
    ensures AcceptedIn(options, times, a, a + options.windowMs) <= 2 * Cap(options) - 1
  {
    if |times| > 0 { IntervalBound(options, times, a); }
  }

  /** A window of one millisecond never overlaps another: then the bound is the limit itself. */
  lemma {:induction false} OneMillisecondBound(options: Options, times: seq<int>, a: int)
    requires Monotone(times) && options.windowMs == 1
    ensures AcceptedIn(options, times, a, a + 1) <= Cap(options)
    ensures |times| > 0 && times[|times| - 1] < a ==> AcceptedIn(options, times, a, a + 1) == 0
    ensures |times| > 0 && times[|times| - 1] == a ==>
      AcceptedIn(options, times, a, a + 1) <= EntryAfter(options, times).value.count
  {
    if |times| > 0 {
      var n := |times| - 1;
      WindowInvariant(options, times);
      OneMillisecondBound(options, times[..n], a);
      if n > 0 { WindowInvariant(options, times[..n]); }
    }
  }

  /******* The bound is met *******/

  // What a run leaves: the entry, and how many events it accepted after its first millisecond.
  ghost predicate Leaves(options: Options, times: seq<int>, entry: Entry, accepted: nat) {
    EntryAfter(options, times) == Some(entry) && AcceptedIn(options, times, 1, 1 + options.windowMs) == accepted
  }

  // One more accepted event within the interval
  lemma OneMoreAccepted(options: Options, times: seq<int>, entry: Entry, accepted: nat, t: int)
    requires Leaves(options, times, entry, accepted) && 1 <= t <= options.windowMs && Hit(Some(entry), t, options).1
    ensures Leaves(options, times + [t], Hit(Some(entry), t, options).0, accepted + 1)
  {
    assert (times + [t])[..|times|] == times;
  }

  lemma FirstEvent(options: Options)
    ensures Leaves(options, [0], Entry(1, options.windowMs), 0)
  {
    assert [0][..0] == [];
  }

  // n events in order, none later than t
  ghost predicate Ends(times: seq<int>, n: nat, t: int) {
    |times| == n && Monotone(times) && forall i | 0 <= i < n :: times[i] <= t
  }

  lemma EndsLater(times: seq<int>, n: nat, t: int, t': int)
    requires Ends(times, n, t) && t <= t'
    ensures Ends(times + [t'], n + 1, t')
  {
  }

  // One event at 0 and i - 1 more just before its window ends.
  lemma {:induction false} LateInFirstWindow(options: Options, i: nat) returns (times: seq<int>)
    requires options.windowMs >= 2 && 1 <= i <= options.limit
    ensures Leaves(options, times, Entry(i, options.windowMs), i - 1) && Ends(times, i, options.windowMs - 1)
  {
    if i == 1 {
      times := [0];
      FirstEvent(options);
    } else {
      var before := LateInFirstWindow(options, i - 1);
      times := before + [options.windowMs - 1];
      OneMoreAccepted(options, before, Entry(i - 1, options.windowMs), i - 2, options.windowMs - 1);
      EndsLater(before, i - 1, options.windowMs - 1, options.windowMs - 1);
    }
  }

  // Then a second window, opened and filled at the moment the first one ends.
  lemma {:induction false} EarlyInSecondWindow(options: Options, j: nat) returns (times: seq<int>)
    requires options.windowMs >= 2 && 1 <= j <= options.limit
    ensures Leaves(options, times, Entry(j, 2 * options.windowMs), options.limit - 1 + j)
    ensures Ends(times, options.limit + j, options.windowMs)
  {
    var L, W := options.limit, options.windowMs;
    if j == 1 {
      var before := LateInFirstWindow(options, L);
      times := before + [W];
      OneMoreAccepted(options, before, Entry(L, W), L - 1, W);
      EndsLater(before, L, W - 1, W);
    } else {
      var before := EarlyInSecondWindow(options, j - 1);
      times := before + [W];
      OneMoreAccepted(options, before, Entry(j - 1, 2 * W), L + j - 2, W);
      EndsLater(before, L + j - 1, W, W);
    }
  }

  lemma RejectedNext(options: Options, times: seq<int>, entry: Entry, accepted: nat, t: int)
    requires Leaves(options, times, entry, accepted) && !Hit(Some(entry), t, options).1
    ensures !Accepts(options, times + [t], |times|)
    ensures AcceptedIn(options, times + [t], 1, 1 + options.windowMs) == accepted
  {
    assert (times + [t])[..|times|] == times;
  }

  /**
   Every limit meets the bound of 2 * limit - 1, and the next event is then rejected: a rejection does not mean that
   only `limit` events were accepted within the preceding windowMs.
   */
  lemma BurstMeetsBound(options: Options) returns (times: seq<int>)
    requires options.windowMs >= 2 && options.limit >= 1
    ensures Monotone(times) && |times| == 2 * options.limit + 1
    ensures AcceptedIn(options, times, 1, 1 + options.windowMs) == 2 * options.limit - 1
    ensures times[2 * options.limit] == options.windowMs && !Accepts(options, times, 2 * options.limit)
  {
    var L, W := options.limit, options.windowMs;
    var burst := EarlyInSecondWindow(options, L);
    times := burst + [W];
    RejectedNext(options, burst, Entry(L, 2 * W), 2 * L - 1, W);
    EndsLater(burst, 2 * L, W, W);
  }
}

/**
 What the request metrics mean: functions and facts about the whole history of recorded requests.
 The in-memory service of `Metrics` keeps only a bounded summary of it.
 */
module MetricsHistory {
  import opened Common

  datatype Request = Request(at: int, route: string, statusCode: int, durationMs: int)

  datatype Sample = Sample(timestamp: int, route: string, statusCode: int)

  datatype RouteMetric = RouteMetric(count: nat, errors: nat, latencySumMs: int, latencyMinMs: int, latencyMaxMs: int)

  type History = seq<Request>

  /******* The sliding window *******/

  function Samples(h: History): seq<Sample> {
    seq(|h|, i requires 0 <= i < |h| => Sample(h[i].at, h[i].route, h[i].statusCode))
  }

  function LastN<T>(s: seq<T>, n: nat): seq<T> {
    if |s| <= n then s else s[|s| - n..]
  }

  // How many samples are not older than the cutoff, and how many of those are server errors.
  function InWindow(s: seq<Sample>, cutoff: int): nat {
    if |s| == 0 then 0 else InWindow(s[..|s| - 1], cutoff) + if s[|s| - 1].timestamp >= cutoff then 1 else 0
  }

  function ErrorsInWindow(s: seq<Sample>, cutoff: int): nat {
    if |s| == 0 then 0
    else ErrorsInWindow(s[..|s| - 1], cutoff)
         + if s[|s| - 1].timestamp >= cutoff && s[|s| - 1].statusCode >= 500 then 1 else 0
  }

  function Rate(errors: nat, total: nat): real {
    if total == 0 then 0.0 else errors as real / total as real
  }

  /** The rate is the fraction: times the total it is the number of errors. */
  lemma RateMeans(errors: nat, total: nat)
    ensures Rate(errors, total) * total as real == if total == 0 then 0.0 else errors as real
    ensures total == 0 ==> Rate(errors, total) == 0.0
  {
  }

  // The samples from index `from` on that are not older than the cutoff, and the server errors among them
  function WindowFrom(s: seq<Sample>, from: nat, cutoff: int): set<nat> {
    set i: nat | from <= i < |s| && s[i].timestamp >= cutoff
  }

  function ErrorsFrom(s: seq<Sample>, from: nat, cutoff: int): set<nat> {
    set i: nat | from <= i < |s| && s[i].timestamp >= cutoff && s[i].statusCode >= 500
  }

  /** The running counts are the sizes of these sets. */
  lemma {:induction false} CountsAreSizes(s: seq<Sample>, from: nat, cutoff: int)
    requires from <= |s|
    ensures InWindow(s[from..], cutoff) == |WindowFrom(s, from, cutoff)|
    ensures ErrorsInWindow(s[from..], cutoff) == |ErrorsFrom(s, from, cutoff)|
  {
    if from < |s| {
      var n := |s| - 1;
      CountsAreSizes(s[..n], from, cutoff);
      assert s[from..][..n - from] == s[..n][from..];
      WindowFromSnoc(s, from, cutoff);
    }
  }

  lemma WindowFromSnoc(s: seq<Sample>, from: nat, cutoff: int)
    requires from < |s|
    ensures
      var n := |s| - 1;
      var recent := s[n].timestamp >= cutoff;
      && |WindowFrom(s, from, cutoff)| == |WindowFrom(s[..n], from, cutoff)| + (if recent then 1 else 0)
      && |ErrorsFrom(s, from, cutoff)|
         == |ErrorsFrom(s[..n], from, cutoff)| + if recent && s[n].statusCode >= 500 then 1 else 0
  {
    var n: nat := |s| - 1;
    SizeSnoc(WindowFrom(s[..n], from, cutoff), WindowFrom(s, from, cutoff), n, s[n].timestamp >= cutoff);
    SizeSnoc(ErrorsFrom(s[..n], from, cutoff), ErrorsFrom(s, from, cutoff), n,
             s[n].timestamp >= cutoff && s[n].statusCode >= 500);
  }

  // b is a, with n if `added`.
  lemma SizeSnoc(a: set<nat>, b: set<nat>, n: nat, added: bool)
    requires n !in a && forall i: nat :: i in b <==> i in a || (i == n && added)
    ensures |b| == |a| + if added then 1 else 0
  {
    if added { assert b == a + {n}; } else { assert b == a; }
  }

  lemma {:induction false} CountsAdd(a: seq<Sample>, b: seq<Sample>, cutoff: int)
    ensures InWindow(a + b, cutoff) == InWindow(a, cutoff) + InWindow(b, cutoff)
    ensures ErrorsInWindow(a + b, cutoff) == ErrorsInWindow(a, cutoff) + ErrorsInWindow(b, cutoff)
  {
    if |b| == 0 { assert a + b == a; }
    else {
      assert (a + b)[..|a + b| - 1] == a + b[..|b| - 1];
      CountsAdd(a, b[..|b| - 1], cutoff);
    }
  }

  // The counts do not depend on where the buffer's oldest element sits.
  lemma CountsIgnoreRotation(s: seq<Sample>, k: nat, cutoff: int)
    requires k <= |s|
    ensures InWindow(s[k..] + s[..k], cutoff) == InWindow(s, cutoff)
    ensures ErrorsInWindow(s[k..] + s[..k], cutoff) == ErrorsInWindow(s, cutoff)
  {
    CountsAdd(s[k..], s[..k], cutoff);
    CountsAdd(s[..k], s[k..], cutoff);
    assert s[..k] + s[k..] == s;
  }

  lemma {:induction false} NoneInWindow(s: seq<Sample>, cutoff: int)
    ensures InWindow(s, cutoff) == 0 <==> forall i | 0 <= i < |s| :: s[i].timestamp < cutoff
    ensures InWindow(s, cutoff) == 0 ==> ErrorsInWindow(s, cutoff) == 0
    ensures ErrorsInWindow(s, cutoff) <= InWindow(s, cutoff) <= |s|
  {
    if |s| > 0 { NoneInWindow(s[..|s| - 1], cutoff); }
  }

  ghost predicate MonotoneClock(s: seq<Sample>) {
    forall i, j | 0 <= i < j < |s| :: s[i].timestamp <= s[j].timestamp
  }

  // The samples that no longer fit.
  function PushedOut<T>(s: seq<T>, cap: nat): seq<T> {
    if |s| <= cap then [] else s[..|s| - cap]
  }

  lemma WindowSplits(s: seq<Sample>, cap: nat, cutoff: int)
    ensures InWindow(s, cutoff) == InWindow(PushedOut(s, cap), cutoff) + InWindow(LastN(s, cap), cutoff)
    ensures ErrorsInWindow(s, cutoff)
            == ErrorsInWindow(PushedOut(s, cap), cutoff) + ErrorsInWindow(LastN(s, cap), cutoff)
  {
    assert PushedOut(s, cap) + LastN(s, cap) == s;
    CountsAdd(PushedOut(s, cap), LastN(s, cap), cutoff);
  }

  function RateOf(s: seq<Sample>, cutoff: int): real {
    Rate(ErrorsInWindow(s, cutoff), InWindow(s, cutoff))
  }

  /**
   With a monotone clock, the last `cap` samples hold every request of the time window, and rate and count are both
   the true ones, exactly when at most `cap` were recorded in all or the newest sample pushed out is older than the
   window.
   */
  lemma WindowCompleteExactly(s: seq<Sample>, cap: nat, cutoff: int)
    requires MonotoneClock(s)
    ensures InWindow(LastN(s, cap), cutoff) == InWindow(s, cutoff) <==>
            |s| <= cap || s[|s| - cap - 1].timestamp < cutoff
    ensures (RateOf(LastN(s, cap), cutoff), InWindow(LastN(s, cap), cutoff))
            == (RateOf(s, cutoff), InWindow(s, cutoff)) <==>
            |s| <= cap || s[|s| - cap - 1].timestamp < cutoff
  {
    WindowSplits(s, cap, cutoff);
    NoneInWindow(PushedOut(s, cap), cutoff);
    if |s| > cap {
      var n := |s| - cap;
      assert s[..n][n - 1] == s[n - 1];
    }
  }

  /**
   The rate alone is the true one exactly when no request of the window was pushed out, or those pushed out have the
   same error rate as those kept.
   */
  lemma RateTrueExactly(s: seq<Sample>, cap: nat, cutoff: int)
    ensures
      var out, kept := PushedOut(s, cap), LastN(s, cap);
      RateOf(kept, cutoff) == RateOf(s, cutoff) <==>
      InWindow(out, cutoff) == 0 || RateOf(out, cutoff) == RateOf(kept, cutoff)
  {
    var out, kept := PushedOut(s, cap), LastN(s, cap);
    WindowSplits(s, cap, cutoff);
    NoneInWindow(out, cutoff);
    NoneInWindow(kept, cutoff);
    PooledRate(ErrorsInWindow(out, cutoff), InWindow(out, cutoff),
               ErrorsInWindow(kept, cutoff), InWindow(kept, cutoff));
  }

  // Two fractions are equal exactly when their cross products are.
  lemma RatesEqual(a: nat, m: nat, b: nat, n: nat)
    requires m > 0 && n > 0
    ensures Rate(a, m) == Rate(b, n) <==> a * n == b * m
  {
    var x, y, p, q := Rate(a, m), Rate(b, n), m as real, n as real;
    assert x * p == a as real && y * q == b as real;
    assert (x * p) * q == x * (p * q) && (y * q) * p == y * (p * q);
    assert (a * n) as real == (x * p) * q && (b * m) as real == (y * q) * p;
    if a * n == b * m {
      assert (x - y) * (p * q) == 0.0;
      assert p * q > 0.0;
    }
  }

  // Adding a of m to b of n leaves the rate b of n exactly when m is 0 or the rates agree.
  lemma PooledRate(a: nat, m: nat, b: nat, n: nat)
    requires a <= m && b <= n
    ensures Rate(b, n) == Rate(a + b, m + n) <==> m == 0 || Rate(a, m) == Rate(b, n)
  {
    if m > 0 && n > 0 {
      RatesEqual(b, n, a + b, m + n);
      RatesEqual(a, m, b, n);
      assert b * (m + n) == b * m + b * n && (a + b) * n == a * n + b * n;
    }
  }

  /** The window forgets: after more than `cap` requests at one moment the sampled rate can be 0 with errors in it. */
  lemma BusyWindowForgets(cap: nat, at: int)
    requires cap > 0
    ensures
      var s := [Sample(at, "/", 500)] + seq(cap, i => Sample(at, "/", 200));
      && MonotoneClock(s)
      && InWindow(s, at) == cap + 1 && ErrorsInWindow(s, at) == 1
      && InWindow(LastN(s, cap), at) == cap && ErrorsInWindow(LastN(s, cap), at) == 0
      && RateOf(LastN(s, cap), at) == 0.0 < RateOf(s, at)
  {
    var ok := seq(cap, i => Sample(at, "/", 200));
    var s := [Sample(at, "/", 500)] + ok;
    AllGood(ok, at);
    CountsAdd([Sample(at, "/", 500)], ok, at);
    assert s[|s| - cap..] == ok;
    assert [Sample(at, "/", 500)][..0] == [];
  }

  lemma {:induction false} AllGood(s: seq<Sample>, at: int)
    requires forall i | 0 <= i < |s| :: s[i].timestamp == at && s[i].statusCode == 200
    ensures InWindow(s, at) == |s| && ErrorsInWindow(s, at) == 0
  {
    if |s| > 0 { AllGood(s[..|s| - 1], at); }
  }

  /******* Per-route aggregates *******/

  function CountOf(h: History, route: string): nat {
    if |h| == 0 then 0 else CountOf(h[..|h| - 1], route) + if h[|h| - 1].route == route then 1 else 0
  }

  function ErrorsOf(h: History, route: string): nat {
    if |h| == 0 then 0
    else ErrorsOf(h[..|h| - 1], route) + if h[|h| - 1].route == route && h[|h| - 1].statusCode >= 500 then 1 else 0
  }

  function LatencyOf(h: History, route: string): int {
    if |h| == 0 then 0
    else LatencyOf(h[..|h| - 1], route) + if h[|h| - 1].route == route then h[|h| - 1].durationMs else 0
  }

  // The requests on a route, and the server errors among them
  function RequestsOn(h: History, route: string): set<nat> {
    set k: nat | k < |h| && h[k].route == route
  }

  function ErrorsOn(h: History, route: string): set<nat> {
    set k: nat | k < |h| && h[k].route == route && h[k].statusCode >= 500
  }

  /** The aggregates count the requests and errors on the route. */
  lemma {:induction false} RouteCountsAreSizes(h: History, route: string)
    ensures CountOf(h, route) == |RequestsOn(h, route)| && ErrorsOf(h, route) == |ErrorsOn(h, route)|
  {
    if |h| > 0 {
      RouteCountsAreSizes(h[..|h| - 1], route);
      RouteSetsSnoc(h, route);
    } else { assert RequestsOn(h, route) == {} && ErrorsOn(h, route) == {}; }
  }

  lemma RouteSetsSnoc(h: History, route: string)
    requires |h| > 0
    ensures
      var n := |h| - 1;
      var here := h[n].route == route;
      && |RequestsOn(h, route)| == |RequestsOn(h[..n], route)| + (if here then 1 else 0)
      && |ErrorsOn(h, route)| == |ErrorsOn(h[..n], route)| + if here && h[n].statusCode >= 500 then 1 else 0
  {
    var n: nat := |h| - 1;
    SizeSnoc(RequestsOn(h[..n], route), RequestsOn(h, route), n, h[n].route == route);
    SizeSnoc(ErrorsOn(h[..n], route), ErrorsOn(h, route), n, h[n].route == route && h[n].statusCode >= 500);
  }

  /** The latency is the sum over the route: a request adds its own, and parts add up. */
  lemma {:induction false} LatencyAdds(a: History, b: History, route: string)
    ensures LatencyOf(a + b, route) == LatencyOf(a, route) + LatencyOf(b, route)
    ensures forall q: Request :: LatencyOf([q], route) == if q.route == route then q.durationMs else 0
  {
    forall q: Request ensures LatencyOf([q], route) == if q.route == route then q.durationMs else 0 {
      assert [q][..0] == [];
    }
    if |b| == 0 { assert a + b == a; }
    else {
      assert (a + b)[..|a + b| - 1] == a + b[..|b| - 1];
      LatencyAdds(a, b[..|b| - 1], route);
    }
  }

  // m is the summary of exactly the requests of h on this route.
  ghost predicate Summarises(m: RouteMetric, h: History, route: string) {
    && m.count == CountOf(h, route) && m.errors == ErrorsOf(h, route) && m.latencySumMs == LatencyOf(h, route)
    && (forall k | 0 <= k < |h| && h[k].route == route :: m.latencyMinMs <= h[k].durationMs <= m.latencyMaxMs)
    && (exists k :: 0 <= k < |h| && h[k].route == route && h[k].durationMs == m.latencyMinMs)
    && (exists k :: 0 <= k < |h| && h[k].route == route && h[k].durationMs == m.latencyMaxMs)
  }

  function RoutesOf(h: History): set<string> {
    set k | 0 <= k < |h| :: h[k].route
  }

  // The routes that have an entry after h: once `max` are tracked, new ones are dropped.
  function Tracked(h: History, max: nat): set<string> {
    if |h| == 0 then {}
    else
      var before := Tracked(h[..|h| - 1], max);
      if |before| < max then before + {h[|h| - 1].route} else before
  }

  // How many requests were on a route that was dropped.
  function Dropped(h: History, max: nat): nat {
    if |h| == 0 then 0
    else Dropped(h[..|h| - 1], max) + if h[|h| - 1].route in Tracked(h, max) then 0 else 1
  }

  lemma RoutesSnoc(h: History)
    requires |h| > 0
    ensures RoutesOf(h) == RoutesOf(h[..|h| - 1]) + {h[|h| - 1].route}
  {
    var n := |h| - 1;
    forall r | r in RoutesOf(h) ensures r in RoutesOf(h[..n]) + {h[n].route} {
      var k :| 0 <= k < |h| && h[k].route == r;
      if k < n { assert h[..n][k].route == r; }
    }
    forall r | r in RoutesOf(h[..n]) ensures r in RoutesOf(h) {
      var k :| 0 <= k < n && h[..n][k].route == r;
      assert h[k].route == r;
    }
  }

  lemma {:induction false} TrackedIsBounded(h: History, max: nat)
    ensures |Tracked(h, max)| <= max && Tracked(h, max) <= RoutesOf(h)
    ensures |Tracked(h, max)| < max ==> Tracked(h, max) == RoutesOf(h)
  {
    if |h| > 0 {
      TrackedIsBounded(h[..|h| - 1], max);
      RoutesSnoc(h);
    }
  }

  /** A tracked route is never lost. */
  lemma {:induction false} TrackedNeverLost(h: History, k: nat, max: nat)
    requires k <= |h|
    ensures Tracked(h[..k], max) <= Tracked(h, max)
  {
    if k < |h| {
      TrackedNeverLost(h[..|h| - 1], k, max);
      assert h[..|h| - 1][..k] == h[..k];
    } else { assert h[..k] == h; }
  }

  // Request k is on this route, and fewer than max distinct routes came before it.
  ghost predicate SeenEarly(h: History, route: string, max: nat, k: int) {
    0 <= k < |h| && h[k].route == route && |RoutesOf(h[..k])| < max
  }

  /** A route is tracked exactly when fewer than `max` distinct routes had been seen before some request on it. */
  lemma {:induction false} TrackedExactly(h: History, route: string, max: nat)
    ensures route in Tracked(h, max) <==> exists k :: SeenEarly(h, route, max, k)
  {
    if |h| > 0 {
      var n := |h| - 1;
      TrackedExactly(h[..n], route, max);
      SeenEarlySnoc(h, h[..n], route, max);
      FullOnlyIfSeen(h[..n], max);
    }
  }

  lemma SeenEarlySnoc(h: History, init: History, route: string, max: nat)
    requires |h| > 0 && init == h[..|h| - 1]
    ensures (exists k :: SeenEarly(h, route, max, k)) <==>
            (exists k :: SeenEarly(init, route, max, k)) || SeenEarly(h, route, max, |h| - 1)
  {
    forall k | 0 <= k < |h| - 1 ensures SeenEarly(h, route, max, k) <==> SeenEarly(init, route, max, k) {
      assert init[..k] == h[..k];
    }
    if k :| SeenEarly(init, route, max, k) { assert SeenEarly(h, route, max, k); }
  }

  // Fewer than max tracked means fewer than max seen, and the other way round.
  lemma FullOnlyIfSeen(h: History, max: nat)
    ensures |Tracked(h, max)| < max <==> |RoutesOf(h)| < max
  {
    TrackedIsBounded(h, max);
    SubsetIsSmaller(Tracked(h, max), RoutesOf(h));
  }

  ghost predicate CountsAre(routes: map<string, RouteMetric>, h: History, max: nat) {
    routes.Keys == Tracked(h, max) && forall r | r in routes :: routes[r].count == CountOf(h, r)
  }

  /** Every request is counted on its route or dropped: the counts and the dropped requests make the total. */
  lemma {:induction false} CountsConserve(h: History, max: nat, routes: map<string, RouteMetric>)
    requires CountsAre(routes, h, max)
    ensures SumCounts(routes) + Dropped(h, max) == |h|
    decreases |h|
  {
    if |h| == 0 { assert routes == map[]; }
    else {
      var n := |h| - 1;
      var before := CountsBefore(h, max, routes);
      CountsConserve(h[..n], max, before);
      OneRequestCounts(h, max, routes, before);
    }
  }

  lemma CountsBefore(h: History, max: nat, routes: map<string, RouteMetric>) returns (before: map<string, RouteMetric>)
    requires |h| > 0 && CountsAre(routes, h, max)
    ensures CountsAre(before, h[..|h| - 1], max)
  {
    var n := |h| - 1;
    var keys := Tracked(h[..n], max);
    before := map x | x in keys :: RouteMetric(CountOf(h[..n], x), 0, 0, 0, 0);
  }

  // The last request changes no other route's count.
  lemma OthersKeepCounts(
    h: History, max: nat, routes: map<string, RouteMetric>, before: map<string, RouteMetric>, r: string)
    requires |h| > 0 && CountsAre(routes, h, max) && CountsAre(before, h[..|h| - 1], max) && r == h[|h| - 1].route
    ensures (routes - {r}).Keys == (before - {r}).Keys
    ensures forall x | x in routes - {r} :: routes[x].count == before[x].count
  {
  }

  function CountIn(routes: map<string, RouteMetric>, r: string): nat {
    if r in routes then routes[r].count else 0
  }

  // The last request adds one to its route's count, or is dropped.
  lemma LastCounts(h: History, max: nat, routes: map<string, RouteMetric>, before: map<string, RouteMetric>, r: string)
    requires |h| > 0 && CountsAre(routes, h, max) && CountsAre(before, h[..|h| - 1], max) && r == h[|h| - 1].route
    ensures CountIn(routes, r) == CountIn(before, r) + if r in routes then 1 else 0
  {
    if r in routes && r !in before {
      TrackedIsBounded(h[..|h| - 1], max);
      NotSeenNotCounted(h[..|h| - 1], r);
    }
  }

  lemma OneRequestCounts(
    h: History, max: nat, routes: map<string, RouteMetric>, before: map<string, RouteMetric>)
    requires |h| > 0 && CountsAre(routes, h, max) && CountsAre(before, h[..|h| - 1], max)
    ensures SumCounts(routes) == SumCounts(before) + if h[|h| - 1].route in routes then 1 else 0
  {
    var r := h[|h| - 1].route;
    OthersKeepCounts(h, max, routes, before, r);
    LastCounts(h, max, routes, before, r);
    SumCountsWithout(routes, r);
    SumCountsWithout(before, r);
    SumCountsAgree(routes - {r}, before - {r});
  }

  lemma SumCountsWithout(routes: map<string, RouteMetric>, r: string)
    ensures SumCounts(routes) == CountIn(routes, r) + SumCounts(routes - {r})
  {
    if r in routes { SumCountsSplit(routes, r); } else { assert routes - {r} == routes; }
  }

  lemma {:induction false} NotSeenNotCounted(h: History, route: string)
    ensures CountOf(h, route) == 0 <==> route !in RoutesOf(h)
  {
    if |h| > 0 {
      NotSeenNotCounted(h[..|h| - 1], route);
      RoutesSnoc(h);
    }
  }

  ghost function SumCounts(routes: map<string, RouteMetric>): nat
    decreases |routes|
  {
    if routes == map[] then 0
    else
      var r :| r in routes;
      routes[r].count + SumCounts(routes - {r})
  }

  lemma {:induction false} SumCountsSplit(routes: map<string, RouteMetric>, r: string)
    requires r in routes
    ensures SumCounts(routes) == routes[r].count + SumCounts(routes - {r})
    decreases |routes|
  {
    var x :| x in routes && SumCounts(routes) == routes[x].count + SumCounts(routes - {x});
    if x != r {
      SumCountsSplit(routes - {x}, r);
      SumCountsSplit(routes - {r}, x);
      assert routes - {x} - {r} == routes - {r} - {x};
    }
  }

  lemma {:induction false} SumCountsAgree(a: map<string, RouteMetric>, b: map<string, RouteMetric>)
    requires a.Keys == b.Keys && forall r | r in a :: a[r].count == b[r].count
    ensures SumCounts(a) == SumCounts(b)
    decreases |a|
  {
    if a == map[] { assert b == map[]; }
    else {
      var r :| r in a;
      SumCountsSplit(a, r);
      SumCountsSplit(b, r);
      SumCountsAgree(a - {r}, b - {r});
    }
  }

  /******* Rounding *******/

  // Math.round: to the nearest integer, halves up.
  function RoundDiv(a: int, b: int): int
    requires b > 0
  {
    (2 * a + b) / (2 * b)
  }

  lemma Division(a: int, b: int)
    requires b > 0
    ensures b * (a / b) <= a < b * (a / b) + b
  {
  }

  lemma {:induction false} MulMonotone(n: int, a: int, b: int)
    requires n > 0 && a + 1 <= b
    ensures n * a + n <= n * b
    decreases b - a
  {
    assert n * b == n * (b - 1) + n;
    if a + 1 < b { MulMonotone(n, a, b - 1); }
  }

  /** The rounded average of integer durations is a nearest integer to the average and lies between their extremes. */
  lemma RoundedAverageInRange(sum: int, count: int, lo: int, hi: int)
    requires count > 0 && count * lo <= sum <= count * hi
    ensures lo <= RoundDiv(sum, count) <= hi
    ensures 2 * (sum - count * RoundDiv(sum, count)) < count
    ensures 2 * (count * RoundDiv(sum, count) - sum) <= count
  {
    var q := RoundDiv(sum, count);
    Division(2 * sum + count, 2 * count);
    assert (2 * count) * q == 2 * (count * q);
    if q < lo { MulMonotone(count, q, lo); }
    if q > hi { MulMonotone(count, hi, q); }
  }

  lemma {:induction false} LatencyBounds(h: History, route: string, lo: int, hi: int)
    requires forall k | 0 <= k < |h| && h[k].route == route :: lo <= h[k].durationMs <= hi
    ensures CountOf(h, route) * lo <= LatencyOf(h, route) <= CountOf(h, route) * hi
    ensures ErrorsOf(h, route) <= CountOf(h, route)
  {
    if |h| > 0 {
      var n := |h| - 1;
      LatencyBounds(h[..n], route, lo, hi);
      if h[n].route == route {
        assert (CountOf(h[..n], route) + 1) * lo == CountOf(h[..n], route) * lo + lo;
        assert (CountOf(h[..n], route) + 1) * hi == CountOf(h[..n], route) * hi + hi;
      }
    }
  }
}

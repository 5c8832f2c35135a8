/** The bounded in-memory request metrics: what they hold is always a function of the whole history. */
module Metrics {
  import opened MetricsHistory

  const MAX_ROUTES := 500
  const WINDOW_CAPACITY := 20_000

  datatype RouteSnapshot = RouteSnapshot(route: string, count: nat, errors: nat, avgMs: int, minMs: int, maxMs: int)

  datatype Snapshot = Snapshot(
    totalRequests: nat, trackedRoutes: nat, errorRate: real, samples: nat, perRoute: seq<RouteSnapshot>)

  // The buffer read from its oldest sample on.
  function Rotated(samples: seq<Sample>, next: nat): seq<Sample>
    requires next <= |samples|
  {
    samples[next..] + samples[..next]
  }

  // The buffer of the given capacity holds the end of the history, oldest first from `next` on.
  ghost predicate BufferOk(capacity: nat, samples: seq<Sample>, next: nat, h: History) {
    && next < capacity && next <= |samples| <= capacity
    && (|samples| < capacity ==> next == 0)
    && Rotated(samples, next) == LastN(Samples(h), capacity)
  }

  ghost predicate WindowOk(samples: seq<Sample>, next: nat, h: History) {
    BufferOk(WINDOW_CAPACITY, samples, next, h)
  }

  ghost predicate RoutesOk(routes: map<string, RouteMetric>, h: History) {
    && routes.Keys == Tracked(h, MAX_ROUTES)
    && forall r {:trigger Summarises(routes[r], h, r)} | r in routes :: Summarises(routes[r], h, r)
  }

  // Overwriting the oldest sample and moving on is dropping it and appending the new one.
  lemma OverwriteOldest(samples: seq<Sample>, next: nat, sample: Sample)
    requires next < |samples|
    ensures
      var after := samples[next := sample];
      var next' := if next + 1 < |samples| then next + 1 else 0;
      Rotated(after, next') == Rotated(samples, next)[1..] + [sample]
  {
  }

  lemma LastNSnoc<T>(s: seq<T>, x: T, n: nat)
    requires n > 0
    ensures LastN(s + [x], n) == (if |s| < n then LastN(s, n) else LastN(s, n)[1..]) + [x]
  {
  }

  lemma WrapIndex(next: nat, capacity: nat)
    requires next < capacity
    ensures (next + 1) % capacity == if next + 1 < capacity then next + 1 else 0
  {
    if next + 1 == capacity { assert capacity % capacity == 0; }
  }

  lemma SamplesSnoc(h: History, request: Request)
    ensures Samples(h + [request]) == Samples(h) + [Sample(request.at, request.route, request.statusCode)]
  {
  }

  lemma GrowKeepsBuffer(capacity: nat, samples: seq<Sample>, next: nat, h: History, request: Request)
    requires BufferOk(capacity, samples, next, h) && |samples| < capacity
    ensures BufferOk(capacity, samples + [Sample(request.at, request.route, request.statusCode)], next, h + [request])
  {
    SamplesSnoc(h, request);
    LastNSnoc(Samples(h), Sample(request.at, request.route, request.statusCode), capacity);
  }

  lemma WrapKeepsBuffer(capacity: nat, samples: seq<Sample>, next: nat, h: History, request: Request)
    requires BufferOk(capacity, samples, next, h) && |samples| == capacity
    ensures
      var sample := Sample(request.at, request.route, request.statusCode);
      BufferOk(capacity, samples[next := sample], if next + 1 < capacity then next + 1 else 0, h + [request])
  {
    var sample := Sample(request.at, request.route, request.statusCode);
    SamplesSnoc(h, request);
    LastNSnoc(Samples(h), sample, capacity);
    OverwriteOldest(samples, next, sample);
    assert |Rotated(samples, next)| == |LastN(Samples(h), capacity)|;
  }

  /**
   The ring buffer, for every capacity: growing until it is full, then overwriting at the wrapping index, keeps it equal
   to the last `capacity` samples of the history.
   */
  lemma WindowPush(capacity: nat, samples: seq<Sample>, next: nat, h: History, request: Request)
    requires BufferOk(capacity, samples, next, h)
    ensures
      var sample := Sample(request.at, request.route, request.statusCode);
      if |samples| < capacity then BufferOk(capacity, samples + [sample], next, h + [request])
      else BufferOk(capacity, samples[next := sample], (next + 1) % capacity, h + [request])
  {
    if |samples| < capacity { GrowKeepsBuffer(capacity, samples, next, h, request); }
    else {
      WrapIndex(next, capacity);
      WrapKeepsBuffer(capacity, samples, next, h, request);
    }
  }

  lemma TrackedSnoc(h: History, request: Request)
    ensures
      var before := Tracked(h, MAX_ROUTES);
      Tracked(h + [request], MAX_ROUTES) == if |before| < MAX_ROUTES then before + {request.route} else before
  {
    assert (h + [request])[..|h|] == h;
  }

  lemma SummaryOfOthers(m: RouteMetric, h: History, request: Request, r: string)
    requires Summarises(m, h, r) && request.route != r
    ensures Summarises(m, h + [request], r)
  {
    var h' := h + [request];
    assert h'[..|h|] == h;
    forall k | 0 <= k < |h'| && h'[k].route == r ensures m.latencyMinMs <= h'[k].durationMs <= m.latencyMaxMs {
      assert h[k].route == r;
    }
    var a :| 0 <= a < |h| && h[a].route == r && h[a].durationMs == m.latencyMinMs;
    var b :| 0 <= b < |h| && h[b].route == r && h[b].durationMs == m.latencyMaxMs;
    assert h'[a] == h[a] && h'[b] == h[b];
  }

  function Min(a: int, b: int): int { if a <= b then a else b }

  function Max(a: int, b: int): int { if a >= b then a else b }

  function Added(m: RouteMetric, request: Request): RouteMetric {
    RouteMetric(m.count + 1, m.errors + if request.statusCode >= 500 then 1 else 0,
                m.latencySumMs + request.durationMs,
                Min(m.latencyMinMs, request.durationMs), Max(m.latencyMaxMs, request.durationMs))
  }

  lemma SummaryOfSame(m: RouteMetric, h: History, request: Request)
    requires Summarises(m, h, request.route)
    ensures Summarises(Added(m, request), h + [request], request.route)
  {
    var h', r := h + [request], request.route;
    assert h'[..|h|] == h;
    forall k | 0 <= k < |h'| && h'[k].route == r
      ensures Min(m.latencyMinMs, request.durationMs) <= h'[k].durationMs <= Max(m.latencyMaxMs, request.durationMs)
    {
      if k < |h| { assert h[k].route == r; }
    }
    var a :| 0 <= a < |h| && h[a].route == r && h[a].durationMs == m.latencyMinMs;
    var b :| 0 <= b < |h| && h[b].route == r && h[b].durationMs == m.latencyMaxMs;
    assert h'[a] == h[a] && h'[b] == h[b] && h'[|h|] == request;
  }

  lemma SummaryOfFirst(h: History, request: Request)
    requires request.route !in RoutesOf(h)
    ensures Summarises(FirstOf(request), h + [request], request.route)
  {
    var h', r := h + [request], request.route;
    assert h'[..|h|] == h && h'[|h|] == request;
    forall k | 0 <= k < |h| ensures h[k].route != r && h'[k] == h[k] { assert h[k].route in RoutesOf(h); }
    NotSeenNotCounted(h, r);
    LatencyBounds(h, r, 0, 0);
  }

  function FirstOf(request: Request): RouteMetric {
    RouteMetric(1, if request.statusCode >= 500 then 1 else 0,
                request.durationMs, request.durationMs, request.durationMs)
  }

  // Aggregate on a tracked route, start a new route while there is room, drop the request's route otherwise.
  function AddToRoutes(routes: map<string, RouteMetric>, request: Request): map<string, RouteMetric> {
    if request.route in routes then routes[request.route := Added(routes[request.route], request)]
    else if |routes| < MAX_ROUTES then routes[request.route := FirstOf(request)]
    else routes
  }

  lemma KeysPush(routes: map<string, RouteMetric>, h: History, request: Request)
    requires routes.Keys == Tracked(h, MAX_ROUTES)
    ensures AddToRoutes(routes, request).Keys == Tracked(h + [request], MAX_ROUTES)
  {
    TrackedSnoc(h, request);
    assert |routes| == |routes.Keys|;
  }

  lemma NewRouteIsUnseen(h: History, route: string)
    requires route !in Tracked(h, MAX_ROUTES) && |Tracked(h, MAX_ROUTES)| < MAX_ROUTES
    ensures route !in RoutesOf(h)
  {
    TrackedIsBounded(h, MAX_ROUTES);
  }

  lemma RoutesPush(routes: map<string, RouteMetric>, h: History, request: Request)
    requires RoutesOk(routes, h)
    ensures RoutesOk(AddToRoutes(routes, request), h + [request])
  {
    var after := AddToRoutes(routes, request);
    KeysPush(routes, h, request);
    assert |routes| == |routes.Keys|;
    forall r | r in after ensures Summarises(after[r], h + [request], r) {
      if r != request.route { SummaryOfOthers(routes[r], h, request, r); }
      else if r in routes { SummaryOfSame(routes[r], h, request); }
      else {
        NewRouteIsUnseen(h, r);
        SummaryOfFirst(h, request);
      }
    }
  }

  // What a snapshot shows of one route.
  function View(r: string, m: RouteMetric): RouteSnapshot {
    RouteSnapshot(r, m.count, m.errors, if m.count == 0 then 0 else RoundDiv(m.latencySumMs, m.count),
                  m.latencyMinMs, m.latencyMaxMs)
  }

  /******* The order of a snapshot *******/

  // x goes after the last row that counts at least as many requests.
  function Place(rows: seq<RouteSnapshot>, x: RouteSnapshot): seq<RouteSnapshot> {
    if |rows| == 0 || rows[|rows| - 1].count >= x.count then rows + [x]
    else Place(rows[..|rows| - 1], x) + [rows[|rows| - 1]]
  }

  // perRoute.sort((a, b) => b.count - a.count), which is stable
  function Ranked(rows: seq<RouteSnapshot>): seq<RouteSnapshot> {
    if |rows| == 0 then [] else Place(Ranked(rows[..|rows| - 1]), rows[|rows| - 1])
  }

  ghost predicate Descending(rows: seq<RouteSnapshot>) {
    forall i, j | 0 <= i < j < |rows| :: rows[i].count >= rows[j].count
  }

  ghost predicate Distinct(rows: seq<RouteSnapshot>) {
    forall i, j | 0 <= i < j < |rows| :: rows[i].route != rows[j].route
  }

  function RoutesShown(rows: seq<RouteSnapshot>): set<string> {
    set i | 0 <= i < |rows| :: rows[i].route
  }

  lemma {:induction false} PlaceInserts(rows: seq<RouteSnapshot>, x: RouteSnapshot)
    ensures |Place(rows, x)| == |rows| + 1
    ensures forall y :: y in Place(rows, x) <==> y in rows || y == x
    ensures Descending(rows) ==> Descending(Place(rows, x))
    ensures Distinct(rows) && x.route !in RoutesShown(rows) ==> Distinct(Place(rows, x))
  {
    if |rows| > 0 && rows[|rows| - 1].count < x.count {
      var n := |rows| - 1;
      PlaceInserts(rows[..n], x);
      assert rows == rows[..n] + [rows[n]];
      PlaceKeepsOrder(rows, Place(rows[..n], x), x);
    }
  }

  lemma PlaceKeepsOrder(rows: seq<RouteSnapshot>, placed: seq<RouteSnapshot>, x: RouteSnapshot)
    requires |rows| > 0 && forall y :: y in placed <==> y in rows[..|rows| - 1] || y == x
    ensures Descending(rows) && Descending(placed) && rows[|rows| - 1].count < x.count ==>
      Descending(placed + [rows[|rows| - 1]])
    ensures Distinct(rows) && Distinct(placed) && x.route !in RoutesShown(rows) ==>
      Distinct(placed + [rows[|rows| - 1]])
  {
    forall i | 0 <= i < |placed| ensures placed[i] in rows[..|rows| - 1] || placed[i] == x {
      assert placed[i] in placed;
    }
  }

  // Sorting shows the same rows, the busiest routes first.
  lemma {:induction false} RankedSorts(rows: seq<RouteSnapshot>)
    ensures |Ranked(rows)| == |rows| && Descending(Ranked(rows))
    ensures forall y :: y in Ranked(rows) <==> y in rows
    ensures Distinct(rows) ==> Distinct(Ranked(rows))
  {
    if |rows| > 0 {
      var n := |rows| - 1;
      RankedSorts(rows[..n]);
      PlaceInserts(Ranked(rows[..n]), rows[n]);
      assert rows == rows[..n] + [rows[n]];
      if Distinct(rows) { LastIsNew(rows, Ranked(rows[..n])); }
    }
  }

  lemma LastIsNew(rows: seq<RouteSnapshot>, others: seq<RouteSnapshot>)
    requires |rows| > 0 && Distinct(rows) && forall y :: y in others <==> y in rows[..|rows| - 1]
    ensures Distinct(rows[..|rows| - 1]) && rows[|rows| - 1].route !in RoutesShown(others)
  {
    forall i | 0 <= i < |others| ensures others[i].route != rows[|rows| - 1].route {
      assert others[i] in others;
    }
  }

  // Every route of the map, once, as it is shown.
  ghost predicate ShowsAll(rows: seq<RouteSnapshot>, routes: map<string, RouteMetric>) {
    && |rows| == |routes| && Distinct(rows) && RoutesShown(rows) == routes.Keys
    && forall y | y in rows :: y.route in routes && y == View(y.route, routes[y.route])
  }

  lemma RankedShowsAll(rows: seq<RouteSnapshot>, routes: map<string, RouteMetric>)
    requires ShowsAll(rows, routes)
    ensures ShowsAll(Ranked(rows), routes) && Descending(Ranked(rows))
  {
    RankedSorts(rows);
    SameRoutesShown(Ranked(rows), rows);
  }

  lemma SameRoutesShown(a: seq<RouteSnapshot>, b: seq<RouteSnapshot>)
    requires forall y :: y in a <==> y in b
    ensures RoutesShown(a) == RoutesShown(b)
  {
    forall i | 0 <= i < |a| ensures a[i].route in RoutesShown(b) { assert a[i] in b; }
    forall i | 0 <= i < |b| ensures b[i].route in RoutesShown(a) { assert b[i] in a; }
  }

  /******* The sampled window *******/

  // The sampled window of a history: how many requests it shows since the cutoff, and their 5xx fraction.
  function SampledTotal(h: History, cutoff: int): nat {
    InWindow(LastN(Samples(h), WINDOW_CAPACITY), cutoff)
  }

  function SampledRate(h: History, cutoff: int): real {
    RateOf(LastN(Samples(h), WINDOW_CAPACITY), cutoff)
  }

  // The requests among the last 20000 that are not older than the cutoff, and the server errors among them
  function RecentRequests(h: History, cutoff: int): set<nat> {
    set i: nat | |h| - 20_000 <= i < |h| && h[i].at >= cutoff
  }

  function RecentErrors(h: History, cutoff: int): set<nat> {
    set i: nat | |h| - 20_000 <= i < |h| && h[i].at >= cutoff && h[i].statusCode >= 500
  }

  /** What is sampled: the recent requests, and the fraction of them that failed. */
  lemma SampledMeans(h: History, cutoff: int)
    ensures SampledTotal(h, cutoff) == |RecentRequests(h, cutoff)|
    ensures
      var total, errors := |RecentRequests(h, cutoff)|, |RecentErrors(h, cutoff)|;
      SampledRate(h, cutoff) == if total == 0 then 0.0 else errors as real / total as real
  {
    var s := Samples(h);
    var from := if |h| <= 20_000 then 0 else |h| - 20_000;
    assert LastN(s, WINDOW_CAPACITY) == s[from..];
    CountsAreSizes(s, from, cutoff);
    RecentAreWindow(h, from, cutoff);
  }

  lemma RecentAreWindow(h: History, from: nat, cutoff: int)
    requires from == if |h| <= 20_000 then 0 else |h| - 20_000
    ensures WindowFrom(Samples(h), from, cutoff) == RecentRequests(h, cutoff)
    ensures ErrorsFrom(Samples(h), from, cutoff) == RecentErrors(h, cutoff)
  {
  }

  /**
   The service reports the true 5xx fraction of the time window exactly when none of its requests was pushed out of
   the buffer, or those pushed out failed at the same rate.
   */
  lemma SampledRateTrueExactly(h: History, cutoff: int)
    ensures
      var out := PushedOut(Samples(h), WINDOW_CAPACITY);
      SampledRate(h, cutoff) == RateOf(Samples(h), cutoff) <==>
      InWindow(out, cutoff) == 0 || RateOf(out, cutoff) == SampledRate(h, cutoff)
  {
    RateTrueExactly(Samples(h), WINDOW_CAPACITY, cutoff);
  }

  // The buffer answers for the last WINDOW_CAPACITY requests, wherever its oldest element sits.
  lemma BufferAnswers(samples: seq<Sample>, next: nat, h: History, cutoff: int)
    requires WindowOk(samples, next, h)
    ensures InWindow(samples, cutoff) == SampledTotal(h, cutoff)
    ensures RateOf(samples, cutoff) == SampledRate(h, cutoff) && 0.0 <= SampledRate(h, cutoff) <= 1.0
  {
    CountsIgnoreRotation(samples, next, cutoff);
    NoneInWindow(samples, cutoff);
    RateIsFraction(ErrorsInWindow(samples, cutoff), InWindow(samples, cutoff));
  }

  lemma CountsSnoc(samples: seq<Sample>, i: nat, cutoff: int)
    requires i < |samples|
    ensures
      var recent := samples[i].timestamp >= cutoff;
      && InWindow(samples[..i + 1], cutoff) == InWindow(samples[..i], cutoff) + (if recent then 1 else 0)
      && ErrorsInWindow(samples[..i + 1], cutoff)
         == ErrorsInWindow(samples[..i], cutoff) + if recent && samples[i].statusCode >= 500 then 1 else 0
  {
    assert samples[..i + 1][..i] == samples[..i];
  }

  // What a snapshot says of a route is what happened on it.
  ghost predicate ViewOk(s: RouteSnapshot, h: History) {
    && s.count == |RequestsOn(h, s.route)| > 0 && s.errors == |ErrorsOn(h, s.route)| <= s.count
    && (forall k | 0 <= k < |h| && h[k].route == s.route :: s.minMs <= h[k].durationMs <= s.maxMs)
    && (exists k :: 0 <= k < |h| && h[k].route == s.route && h[k].durationMs == s.minMs)
    && (exists k :: 0 <= k < |h| && h[k].route == s.route && h[k].durationMs == s.maxMs)
    && s.minMs <= s.avgMs <= s.maxMs
    && 2 * (LatencyOf(h, s.route) - s.count * s.avgMs) < s.count
    && 2 * (s.count * s.avgMs - LatencyOf(h, s.route)) <= s.count
  }

  class MetricsService {
    var routes: map<string, RouteMetric>
    var samples: seq<Sample>
    var nextSampleIndex: nat
    var totalRequests: nat
    ghost var history: History

    ghost predicate Valid()
      reads this
    {
      && totalRequests == |history|
      && WindowOk(samples, nextSampleIndex, history)
      && RoutesOk(routes, history)
    }

    constructor ()
      ensures Valid() && history == []
    {
      routes, samples, nextSampleIndex, totalRequests := map[], [], 0, 0;
      history := [];
    }

    method Record(route: string, statusCode: int, durationMs: int, now: int)
      requires Valid()
      modifies this
      ensures Valid() && history == old(history) + [Request(now, route, statusCode, durationMs)]
    {
      ghost var request := Request(now, route, statusCode, durationMs);
      RoutesPush(routes, history, request);
      totalRequests := totalRequests + 1;
      CountRoute(route, statusCode, durationMs, request);
      PushSample(route, statusCode, now, history, request);
      history := history + [request];
    }

    method CountRoute(route: string, statusCode: int, durationMs: int, ghost request: Request)
      requires request.route == route && request.statusCode == statusCode && request.durationMs == durationMs
      modifies this`routes
      ensures routes == AddToRoutes(old(routes), request)
    {
      if route in routes {
        var metric := routes[route];
        metric := metric.(count := metric.count + 1);
        if statusCode >= 500 { metric := metric.(errors := metric.errors + 1); }
        metric := metric.(latencySumMs := metric.latencySumMs + durationMs);
        metric := metric.(latencyMinMs := Min(metric.latencyMinMs, durationMs));
        metric := metric.(latencyMaxMs := Max(metric.latencyMaxMs, durationMs));
        routes := routes[route := metric];
      } else if |routes| < MAX_ROUTES {
        var errors := if statusCode >= 500 then 1 else 0;
        routes := routes[route := RouteMetric(1, errors, durationMs, durationMs, durationMs)];
      }
    }

    method PushSample(route: string, statusCode: int, now: int, ghost h: History, ghost request: Request)
      requires request.at == now && request.route == route && request.statusCode == statusCode
      requires WindowOk(samples, nextSampleIndex, h)
      modifies this`samples, this`nextSampleIndex
      ensures WindowOk(samples, nextSampleIndex, h + [request])
    {
      WindowPush(WINDOW_CAPACITY, samples, nextSampleIndex, h, request);
      if |samples| < WINDOW_CAPACITY {
        samples := samples + [Sample(now, route, statusCode)];
        return;
      }
      samples := samples[nextSampleIndex := Sample(now, route, statusCode)];
      nextSampleIndex := (nextSampleIndex + 1) % WINDOW_CAPACITY;
    }

    /** The 5xx fraction of exactly the last WINDOW_CAPACITY requests that fall in the time window. */
    method RecentErrorRate(windowMs: int, now: int) returns (rate: real, total: nat)
      requires Valid()
      ensures
        && total == SampledTotal(history, now - windowMs) == |RecentRequests(history, now - windowMs)|
        && rate == SampledRate(history, now - windowMs)
        && rate == (if total == 0 then 0.0 else |RecentErrors(history, now - windowMs)| as real / total as real)
        && 0.0 <= rate <= 1.0
    {
      var cutoff := now - windowMs;
      SampledMeans(history, cutoff);
      BufferAnswers(samples, nextSampleIndex, history, cutoff);
      total := 0;
      var errors := 0;
      for i := 0 to |samples|
        invariant total == InWindow(samples[..i], cutoff)
        invariant errors == ErrorsInWindow(samples[..i], cutoff)
      {
        CountsSnoc(samples, i, cutoff);
        if samples[i].timestamp >= cutoff {
          total := total + 1;
          if samples[i].statusCode >= 500 { errors := errors + 1; }
        }
      }
      assert samples[..|samples|] == samples;
      assert errors == ErrorsInWindow(samples, cutoff) && total == InWindow(samples, cutoff);
      rate := if total == 0 then 0.0 else errors as real / total as real;
    }

    method PerRoute() returns (perRoute: seq<RouteSnapshot>)
      ensures ShowsAll(perRoute, routes) && Descending(perRoute)
    {
      perRoute := [];
      var todo := routes.Keys;
      while todo != {}
        invariant todo <= routes.Keys && |perRoute| + |todo| == |routes|
        invariant Distinct(perRoute) && RoutesShown(perRoute) == routes.Keys - todo
        invariant forall y | y in perRoute :: y.route in routes && y == View(y.route, routes[y.route])
        decreases todo
      {
        var route :| route in todo;
        var m := routes[route];
        var avgMs := if m.count == 0 then 0 else RoundDiv(m.latencySumMs, m.count);
        ghost var before := perRoute;
        perRoute := perRoute + [RouteSnapshot(route, m.count, m.errors, avgMs, m.latencyMinMs, m.latencyMaxMs)];
        OneMoreShown(before, perRoute[|before|]);
        todo := todo - {route};
      }
      RankedShowsAll(perRoute, routes);
      perRoute := Ranked(perRoute);
    }

    /** Every tracked route, the busiest first, with its whole-history aggregates; averages and rate are rounded. */
    method TakeSnapshot(windowMs: int, now: int) returns (snap: Snapshot)
      requires Valid()
      ensures snap.totalRequests == |history|
      ensures snap.trackedRoutes == |snap.perRoute| == |Tracked(history, MAX_ROUTES)| <= MAX_ROUTES
      ensures Distinct(snap.perRoute) && RoutesShown(snap.perRoute) == Tracked(history, MAX_ROUTES)
      ensures Descending(snap.perRoute) && forall y | y in snap.perRoute :: ViewOk(y, history)
      ensures snap.samples == SampledTotal(history, now - windowMs)
      ensures 0.0 <= snap.errorRate <= 1.0 && RoundsTo(SampledRate(history, now - windowMs), snap.errorRate)
    {
      var rate, total := RecentErrorRate(windowMs, now);
      var perRoute := PerRoute();
      RoundedRate(rate);
      ShownIsTrue(perRoute, routes, history);
      snap := Snapshot(totalRequests, |perRoute|, RoundToThousandth(rate), total, perRoute);
    }
  }

  lemma OneMoreShown(rows: seq<RouteSnapshot>, x: RouteSnapshot)
    requires Distinct(rows) && x.route !in RoutesShown(rows)
    ensures Distinct(rows + [x]) && RoutesShown(rows + [x]) == RoutesShown(rows) + {x.route}
  {
    var after := rows + [x];
    assert after[|rows|] == x;
    forall i | 0 <= i < |rows| ensures after[i].route in RoutesShown(rows) && rows[i].route in RoutesShown(after) {
      assert after[i] == rows[i];
    }
  }

  lemma ShownIsTrue(rows: seq<RouteSnapshot>, routes: map<string, RouteMetric>, h: History)
    requires ShowsAll(rows, routes) && RoutesOk(routes, h)
    ensures |rows| == |Tracked(h, MAX_ROUTES)| <= MAX_ROUTES
    ensures forall y | y in rows :: ViewOk(y, h)
  {
    TrackedIsBounded(h, MAX_ROUTES);
    assert |routes| == |routes.Keys|;
    forall y | y in rows ensures ViewOk(y, h) { SummaryRounds(routes[y.route], h, y.route); }
  }

  // Math.round(rate * 1000) / 1000
  function RoundToThousandth(rate: real): real {
    (rate * 1000.0 + 0.5).Floor as real / 1000.0
  }

  lemma RateIsFraction(errors: nat, total: nat)
    requires errors <= total
    ensures 0.0 <= Rate(errors, total) <= 1.0
  {
    if total > 0 {
      var q := errors as real / total as real;
      assert q * total as real == errors as real;
      assert q > 1.0 ==> q * total as real > 1.0 * total as real;
      assert q < 0.0 ==> q * total as real < 0.0;
    }
  }

  lemma SummaryRounds(m: RouteMetric, h: History, r: string)
    requires Summarises(m, h, r)
    ensures ViewOk(View(r, m), h)
  {
    var k :| 0 <= k < |h| && h[k].route == r;
    assert h[k].route in RoutesOf(h);
    NotSeenNotCounted(h, r);
    RouteCountsAreSizes(h, r);
    LatencyBounds(h, r, m.latencyMinMs, m.latencyMaxMs);
    RoundedAverageInRange(m.latencySumMs, m.count, m.latencyMinMs, m.latencyMaxMs);
  }

  lemma RoundedRate(rate: real)
    requires 0.0 <= rate <= 1.0
    ensures 0.0 <= RoundToThousandth(rate) <= 1.0 && RoundsTo(rate, RoundToThousandth(rate))
  {
    assert Thousandths(RoundToThousandth(rate), (rate * 1000.0 + 0.5).Floor);
  }

  predicate Thousandths(x: real, n: int) {
    x * 1000.0 == n as real
  }

  // A number of thousandths nearest to the rate, halves rounded up
  ghost predicate RoundsTo(rate: real, rounded: real) {
    (exists n :: Thousandths(rounded, n)) && -0.0005 < rounded - rate <= 0.0005
  }

  /** Every route seen is tracked, unless 500 others are. */
  lemma TracksUpTo500(service: MetricsService)
    requires service.Valid()
    ensures service.routes.Keys <= RoutesOf(service.history) && |service.routes| <= 500
    ensures service.routes.Keys == RoutesOf(service.history) || |service.routes| == 500
  {
    TrackedIsBounded(service.history, MAX_ROUTES);
    assert |service.routes| == |service.routes.Keys|;
  }

  /** Whatever is recorded, the tracked counts and the dropped requests make up the total. */
  lemma ServiceConserves(service: MetricsService)
    requires service.Valid()
    ensures SumCounts(service.routes) + Dropped(service.history, MAX_ROUTES) == service.totalRequests
    ensures |service.routes| <= MAX_ROUTES
  {
    forall r | r in service.routes ensures service.routes[r].count == CountOf(service.history, r) {
      assert Summarises(service.routes[r], service.history, r);
    }
    CountsConserve(service.history, MAX_ROUTES, service.routes);
    TrackedIsBounded(service.history, MAX_ROUTES);
    assert |service.routes| == |service.routes.Keys|;
  }
}

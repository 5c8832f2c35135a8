/** The 5xx alert: sample floor, threshold, cooldown and escalation. */
module ErrorRateMonitor {
  import opened MetricsHistory
  import opened Metrics

  datatype Config = Config(errorRateThreshold: real, windowMs: int, minSamples: nat, alertCooldownMs: nat)

  // Past this rate an alert is repeated inside the cooldown.
  function EscalationRate(cfg: Config): real {
    cfg.errorRateThreshold + 0.2
  }

  predicate Breaches(cfg: Config, rate: real, samples: nat) {
    samples >= cfg.minSamples && rate > cfg.errorRateThreshold
  }

  class Monitor {
    const config: Config
    const metrics: MetricsService
    var lastAlertAt: int

    constructor (config: Config, metrics: MetricsService)
      ensures this.config == config && this.metrics == metrics && lastAlertAt == 0
    {
      this.config, this.metrics, lastAlertAt := config, metrics, 0;
    }

    /**
     Alerts exactly on a breach that is out of the cooldown or past the escalation rate; the rate is that of the
     last WINDOW_CAPACITY requests within the window. The re-arm limit of twice the cooldown decides nothing.
     */
    method Check(now: int) returns (alerted: bool)
      requires metrics.Valid()
      modifies this`lastAlertAt
      ensures
        var samples := SampledTotal(metrics.history, now - config.windowMs);
        var rate := SampledRate(metrics.history, now - config.windowMs);
        && (alerted <==>
              && samples >= config.minSamples && rate > config.errorRateThreshold
              && (now - old(lastAlertAt) >= config.alertCooldownMs || rate > config.errorRateThreshold + 0.2))
        && lastAlertAt == (if alerted then now else old(lastAlertAt))
        && (alerted, lastAlertAt) == Decide(config, old(lastAlertAt), now, rate, samples)
    {
      var rate, samples := metrics.RecentErrorRate(config.windowMs, now);
      alerted := false;
      if samples < config.minSamples { return; }
      if rate <= config.errorRateThreshold { return; }
      var reArm := config.alertCooldownMs * 2;
      var withinCooldown := now - lastAlertAt < config.alertCooldownMs;
      var escalated := now - lastAlertAt < reArm && rate > config.errorRateThreshold + 0.2;
      if withinCooldown && !escalated { return; }
      lastAlertAt := now;
      alerted := true;
    }
  }

  function Decide(cfg: Config, lastAlertAt: int, now: int, rate: real, samples: nat): (bool, int) {
    if Breaches(cfg, rate, samples) && (now - lastAlertAt >= cfg.alertCooldownMs || rate > EscalationRate(cfg))
    then (true, now)
    else (false, lastAlertAt)
  }

  /******* Runs of checks *******/

  datatype Sighting = Sighting(now: int, rate: real, samples: nat)

  // lastAlertAt after the checks
  function LastAlert(cfg: Config, last: int, checks: seq<Sighting>): int
    decreases |checks|
  {
    if |checks| == 0 then last
    else
      var c := checks[|checks| - 1];
      Decide(cfg, LastAlert(cfg, last, checks[..|checks| - 1]), c.now, c.rate, c.samples).1
  }

  predicate Alerts(cfg: Config, last: int, checks: seq<Sighting>, k: nat)
    requires k < |checks|
  {
    Decide(cfg, LastAlert(cfg, last, checks[..k]), checks[k].now, checks[k].rate, checks[k].samples).0
  }

  predicate CalmAlert(cfg: Config, last: int, checks: seq<Sighting>, k: nat)
    requires k < |checks|
  {
    Alerts(cfg, last, checks, k) && checks[k].rate <= EscalationRate(cfg)
  }

  // How many of the checks alert at a rate that is not past escalation.
  function CalmAlerts(cfg: Config, last: int, checks: seq<Sighting>): nat
    decreases |checks|
  {
    if |checks| == 0 then 0
    else
      CalmAlerts(cfg, last, checks[..|checks| - 1]) + if CalmAlert(cfg, last, checks, |checks| - 1) then 1 else 0
  }

  ghost predicate Monotone(checks: seq<Sighting>) {
    forall i, j | 0 <= i < j < |checks| :: checks[i].now <= checks[j].now
  }

  // One more check keeps n calm alerts (n - 1) cooldowns apart.
  lemma SpacedStep(start: int, last: int, next: int, n: nat, cooldown: nat, calm: bool)
    requires n > 0 ==> start + (n - 1) * cooldown <= last <= next
    requires calm ==> next - last >= cooldown
    requires start <= next
    ensures calm ==> start + n * cooldown <= next
    ensures n > 0 ==> start + (n - 1) * cooldown <= next
  {
    if calm && n > 0 { assert (n - 1) * cooldown + cooldown == n * cooldown; }
  }

  /**
   Alerts that are not escalations are a cooldown apart: n of them take at least (n - 1) cooldowns, so a span of T
   milliseconds holds at most T / cooldown + 1.
   */
  lemma {:induction false} CalmAlertsAreSpaced(cfg: Config, last: int, checks: seq<Sighting>, n: nat)
    requires Monotone(checks) && |checks| > 0 && n == CalmAlerts(cfg, last, checks)
    ensures n > 0 ==>
      && checks[0].now + (n - 1) * cfg.alertCooldownMs <= LastAlert(cfg, last, checks) <= checks[|checks| - 1].now
    decreases |checks|
  {
    var m := |checks| - 1;
    var init := checks[..m];
    var before := CalmAlerts(cfg, last, init);
    assert n == before + if CalmAlert(cfg, last, checks, m) then 1 else 0;
    if m == 0 { assert init == []; }
    else {
      CalmAlertsAreSpaced(cfg, last, init, before);
      var seen := LastAlert(cfg, last, init);
      assert checks[0] == init[0] && init[m - 1].now <= checks[m].now;
      if before > 0 || Alerts(cfg, last, checks, m) {
        SpacedStep(checks[0].now, seen, checks[m].now, before, cfg.alertCooldownMs, CalmAlert(cfg, last, checks, m));
      }
    }
  }

  /** At most floor(T / cooldown) + 1 non-escalated alerts in any span of T milliseconds. */
  lemma CalmAlertsBounded(cfg: Config, last: int, checks: seq<Sighting>)
    requires Monotone(checks) && |checks| > 0 && cfg.alertCooldownMs > 0
    ensures CalmAlerts(cfg, last, checks)
            <= (checks[|checks| - 1].now - checks[0].now) / cfg.alertCooldownMs + 1
  {
    var n := CalmAlerts(cfg, last, checks);
    CalmAlertsAreSpaced(cfg, last, checks, n);
    if n > 0 {
      Quotient(checks[|checks| - 1].now - checks[0].now, cfg.alertCooldownMs, n - 1);
    }
  }

  lemma Quotient(a: int, b: int, n: int)
    requires b > 0 && n * b <= a
    ensures n <= a / b
  {
    Division(a, b);
    if a / b < n { MulMonotone(b, a / b, n); }
  }

  /** Escalated alerts are not debounced at all: while the rate stays past escalation, every check alerts. */
  lemma EscalationIsNotDebounced(cfg: Config, last: int, checks: seq<Sighting>, k: nat)
    requires k < |checks| && cfg.minSamples <= checks[k].samples && checks[k].rate > EscalationRate(cfg)
    ensures Alerts(cfg, last, checks, k)
  {
  }
}

/** policy/quarantine.py: the deterministic decision. The model's classification is one input, and
    can only veto. */
module Quarantine {
  import opened Models
  import opened History
  import opened HistoryLaws
  import opened Rates
  import opened Detector

  datatype PolicyConfig = PolicyConfig(quarantineFlakeRate: real, minObservations: nat, ttlDays: nat, cleanRuns: nat)

  predicate PolicyOk(c: PolicyConfig) {
    0.0 <= c.quarantineFlakeRate <= 1.0 && c.minObservations >= 1 && c.ttlDays >= 1 && c.cleanRuns >= 1
  }

  datatype RefusalReason =
    NoRefusal | FlakeRateBelowThreshold | InsufficientObservations | CauseIsRegression | CauseIsInfra
    | VerdictIneligible | AlreadyQuarantined | NotFlaky

  /** Times are in seconds. */
  datatype Recommendation = Recommendation(
    identityId: nat, recommended: bool, refusal: RefusalReason, flakeRate: real, observations: nat, cause: CauseCode,
    verdict: Verdict, ttlDays: nat, expiresAt: Option<int>, cleanRunsRequired: nat, mergedUncertain: bool)

  const SECONDS_PER_DAY := 86400

  function Refusal(d: Detection, cause: CauseCode, alreadyQuarantined: bool, config: PolicyConfig): RefusalReason {
    if d.verdict.Regression? then CauseIsRegression
    else if d.verdict.NewFailure? then VerdictIneligible
    else if cause.RealRegression? then CauseIsRegression
    else if cause.InfraFlake? then CauseIsInfra
    else if !d.verdict.Flaky? then NotFlaky
    else if alreadyQuarantined then AlreadyQuarantined
    else if d.observations < config.minObservations then InsufficientObservations
    else if d.flakeRate <= config.quarantineFlakeRate then FlakeRateBelowThreshold
    else NoRefusal
  }

  function Evaluate(d: Detection, classified: Option<CauseCode>, alreadyQuarantined: bool, config: PolicyConfig,
                    now: int): Recommendation {
    var cause := if classified.Some? then classified.value else Unknown;
    var refusal := Refusal(d, cause, alreadyQuarantined, config);
    var recommended := refusal.NoRefusal?;
    Recommendation(
      d.identityId, recommended, refusal, d.flakeRate, d.observations, cause, d.verdict,
      if recommended then config.ttlDays else 0,
      if recommended then Some(now + config.ttlDays * SECONDS_PER_DAY) else None,
      if recommended then config.cleanRuns else 0, d.mergedUncertain)
  }

  /** What the deterministic evidence alone allows. */
  predicate Condemned(d: Detection, alreadyQuarantined: bool, config: PolicyConfig) {
    d.verdict.Flaky? && !alreadyQuarantined && d.observations >= config.minObservations &&
      d.flakeRate > config.quarantineFlakeRate
  }

  /** A recommendation is exactly the deterministic evidence minus the model's two vetoes. */
  lemma {:induction false} RecommendedIff(d: Detection, classified: Option<CauseCode>, already: bool,
                                          config: PolicyConfig, now: int)
    ensures Evaluate(d, classified, already, config, now).recommended <==>
      Condemned(d, already, config) && classified != Some(RealRegression) && classified != Some(InfraFlake)
  {
  }

  /** Each refusal is reported exactly when it is the first that applies. */
  lemma {:induction false} RefusalIff(d: Detection, classified: Option<CauseCode>, already: bool, config: PolicyConfig,
                                      now: int)
    ensures var r := Evaluate(d, classified, already, config, now);
      var eligible := d.verdict.Flaky? && classified != Some(RealRegression) && classified != Some(InfraFlake);
      && (r.refusal.CauseIsRegression? <==>
        d.verdict.Regression? || (!d.verdict.NewFailure? && classified == Some(RealRegression)))
      && (r.refusal.VerdictIneligible? <==> d.verdict.NewFailure?)
      && (r.refusal.CauseIsInfra? <==>
        !d.verdict.Regression? && !d.verdict.NewFailure? && classified == Some(InfraFlake))
      && (r.refusal.NotFlaky? <==>
        && (d.verdict.Healthy? || d.verdict.PersistentFailure?)
        && classified != Some(RealRegression) && classified != Some(InfraFlake))
      && (r.refusal.AlreadyQuarantined? <==> eligible && already)
      && (r.refusal.InsufficientObservations? <==> eligible && !already && d.observations < config.minObservations)
      && (r.refusal.FlakeRateBelowThreshold? <==>
        eligible && !already && d.observations >= config.minObservations && d.flakeRate <= config.quarantineFlakeRate)
      && (r.refusal.NoRefusal? <==> r.recommended)
  {
  }

  /** Whatever the model says, it cannot cause a quarantine: a recommendation made with its answer is also
      made with none, with the same limits. */
  lemma {:induction false} ModelOnlyVetoes(d: Detection, classified: Option<CauseCode>, already: bool,
                                           config: PolicyConfig, now: int)
    requires Evaluate(d, classified, already, config, now).recommended
    ensures Evaluate(d, None, already, config, now).(cause := Evaluate(d, classified, already, config, now).cause)
      == Evaluate(d, classified, already, config, now)
  {
    RecommendedIff(d, classified, already, config, now);
    RecommendedIff(d, None, already, config, now);
  }

  /** A regression found in the history is refused for every classification, as a regression. */
  lemma {:induction false} RegressionIsNeverQuarantined(identityId: nat, h: HistoryOf, context: BranchContext,
                                                        merged: bool, config: DetectConfig,
                                                        classified: Option<CauseCode>, already: bool,
                                                        policy: PolicyConfig, now: int)
    requires Nonempty(h.windows) && ConfigOk(config)
    requires FindRegression(Summaries(h.windows), config).Some?
    ensures var d := DetectForHistory(identityId, h, context, merged, config);
      && d.verdict.Regression?
      && Evaluate(d, classified, already, policy, now).refusal.CauseIsRegression?
      && !Evaluate(d, classified, already, policy, now).recommended
  {
    RegressionVerdictIff(identityId, h, context, merged, config);
  }

  lemma {:induction false} BelowThreshold(d: Detection, classified: Option<CauseCode>, already: bool,
                                          policy: PolicyConfig, now: int)
    requires d.flakeRate <= policy.quarantineFlakeRate
    ensures !Evaluate(d, classified, already, policy, now).recommended
  {
    RecommendedIff(d, classified, already, policy, now);
  }

  /** A test that has passed long enough is never quarantined, whatever came before and whatever the model says. */
  lemma {:induction false} RecoveredIsNeverQuarantined(identityId: nat, h: HistoryOf, context: BranchContext,
                                                       merged: bool, config: DetectConfig, k: nat,
                                                       classified: Option<CauseCode>, already: bool,
                                                       policy: PolicyConfig, now: int)
    requires Nonempty(h.windows) && ConfigOk(config) && k > 0
    requires QuietFor(DataWindows(Summaries(h.windows)), k)
    requires Pow(1.0 - config.ewmaAlpha, k - 1) <= policy.quarantineFlakeRate
    ensures
      var d := DetectForHistory(identityId, h, context, merged, config);
      !Evaluate(d, classified, already, policy, now).recommended
  {
    Recovery(Summaries(h.windows), config.ewmaAlpha, k);
    DetectedRates(identityId, h, context, merged, config);
    BelowThreshold(DetectForHistory(identityId, h, context, merged, config), classified, already, policy, now);
  }

  // ---- release -----------------------------------------------------------

  /** Clean executions since the last failure, newest first. */
  function CleanRuns(outcomes: seq<bool>): (n: nat) {
    if outcomes == [] || !outcomes[0] then 0 else 1 + CleanRuns(outcomes[1..])
  }

  method ConsecutiveCleanRuns(outcomes: seq<bool>) returns (clean: nat)
    ensures clean <= |outcomes| && (forall i :: 0 <= i < clean ==> outcomes[i])
    ensures clean < |outcomes| ==> !outcomes[clean]
    ensures clean == CleanRuns(outcomes)
  {
    clean := 0;
    for k := 0 to |outcomes|
      invariant clean == k && (forall i :: 0 <= i < k ==> outcomes[i])
      invariant CleanRuns(outcomes) == k + CleanRuns(outcomes[k..])
    {
      if !outcomes[k] {
        break;
      }
      assert outcomes[k..][1..] == outcomes[k + 1..];
      clean := clean + 1;
    }
  }

  predicate ShouldRelease(cleanRuns: nat, config: PolicyConfig) { cleanRuns >= config.cleanRuns }

  predicate IsExpired(expiresAt: int, now: int) { expiresAt <= now }
}

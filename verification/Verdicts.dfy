/** The verdict read off the commit windows, each case by itself and not by the order in which they are tried. */
module Verdicts {
  import opened Models
  import opened Store
  import opened History
  import opened HistoryLaws
  import opened Rates
  import opened Detector
  import Picking

  // ---- what a verdict depends on -----------------------------------------

  /** Some commit both passed and failed, or a runner reported a rerun there. */
  ghost predicate AnyDiverged(windows: seq<Summary>) {
    exists w :: w in windows && ((w.hasPass && w.hasFailure) || w.rerun)
  }

  /** The data ends in enough passed commits followed by enough failed ones. */
  ghost predicate Broke(windows: seq<Summary>, config: DetectConfig) {
    LongBreak(DataWindows(windows), config)
  }

  predicate LatestFails(windows: seq<Summary>) { windows != [] && windows[|windows| - 1].hasFailure }

  predicate Unstable(windows: seq<Summary>, config: DetectConfig) {
    && ObservationsIn(windows) >= config.minObservations
    && FlakeRate(windows, config.ewmaAlpha) > config.flakeRateThreshold
  }

  /** A commit seen first on the main branch that has a pass and nothing else. */
  predicate PassedThere(w: Window, main: string)
    requires w.records != []
  {
    && w.records[0].branch == main
    && (exists r :: r in w.records && r.outcome.Pass?)
    && forall r :: r in w.records ==> !r.outcome.Fail? && !r.outcome.Error? && !r.rerunObserved
  }

  /** The latest commit fails on another branch whose change does not touch the test, which passes on the main one. */
  ghost predicate FailsElsewhere(windows: seq<Window>, context: BranchContext, config: DetectConfig)
    requires Nonempty(windows)
  {
    && windows != []
    && windows[|windows| - 1] in windows
    && (exists r :: r in windows[|windows| - 1].records && (r.outcome.Fail? || r.outcome.Error?))
    && windows[|windows| - 1].records[0].branch != config.mainBranch
    && windows[|windows| - 1].records[0].branch != ""
    && context.diffPaths != {} && context.footprint != {} && !context.touches
    && exists w :: w in windows && PassedThere(w, config.mainBranch)
  }

  // ---- the signals -------------------------------------------------------

  lemma {:induction false} DivergenceFires(windows: seq<Summary>)
    ensures FindSameShaDivergence(windows) != [] <==> AnyDiverged(windows)
    ensures AnyDiverged(windows) <==> SomeDiverged(DataWindows(windows))
    ensures AnyDiverged(windows) ==> FindSameShaDivergence(windows)[0].signal.SameShaDivergence?
  {
    DivergedAre(windows);
    DivergedIsData(windows);
    if AnyDiverged(windows) {
      var w :| w in windows && w.IsDiverged();
      assert w in DivergedWindows(windows);
    }
    assert DivergedWindows(windows) != [] ==> DivergedWindows(windows)[0] in DivergedWindows(windows);
  }

  function Observed(records: seq<ExecutionRecord>): set<nat> {
    set i: nat | i < |records| && !records[i].outcome.Skip?
  }

  lemma {:induction false} ObservedCount(records: seq<ExecutionRecord>)
    ensures Observations(records) == |Observed(records)|
  {
    if records != [] {
      var n := |records| - 1;
      ObservedCount(records[..n]);
      if records[n].outcome.Skip? {
        assert Observed(records) == Observed(records[..n]);
      } else {
        assert Observed(records) == Observed(records[..n]) + {n};
      }
    }
  }

  /** What a window's summary says of its records. */
  lemma {:induction false} SummaryOf(w: Window)
    requires w.records != []
    ensures var s := Summarize(w);
      && s.commitSha == w.commitSha && s.observations == |Observed(w.records)|
      && (s.hasPass <==> exists r :: r in w.records && r.outcome.Pass?)
      && (s.hasFailure <==> exists r :: r in w.records && (r.outcome.Fail? || r.outcome.Error?))
      && (s.rerun <==> exists r :: r in w.records && r.rerunObserved)
    ensures forall n :: n in Summarize(w).attempts <==> exists r :: r in w.records && r.attempt == n
    ensures forall n :: n in Summarize(w).passing <==> exists r :: r in w.records && r.attempt == n && r.outcome.Pass?
    ensures forall n :: n in Summarize(w).failing <==>
        exists r :: r in w.records && r.attempt == n && (r.outcome.Fail? || r.outcome.Error?)
    ensures forall r :: r in w.records ==> Summarize(w).startedAt <= r.startedAt
    ensures exists r :: r in w.records && r.startedAt == Summarize(w).startedAt
  {
    ObservedCount(w.records);
    StartedAtIsLeast(w.records);
  }

  lemma {:induction false} NoneObserved(records: seq<ExecutionRecord>)
    ensures Observations(records) == 0 <==> forall r :: r in records ==> r.outcome.Skip?
  {
    if records != [] {
      var n := |records| - 1;
      NoneObserved(records[..n]);
      assert records == records[..n] + [records[n]];
    }
  }

  lemma {:induction false} PassedWindow(w: Window, main: string)
    requires w.records != []
    ensures PassedThere(w, main) <==> BranchOf(w) == main && Summarize(w).Status().Passed?
  {
    SummaryOf(w);
    NoneObserved(w.records);
    if BranchOf(w) == main && Summarize(w).Status().Passed? {
      var r :| r in w.records && !r.outcome.Skip?;
      assert r.outcome.Pass?;
    }
  }

  lemma {:induction false} PassedOnMainIs(windows: seq<Window>, main: string)
    requires Nonempty(windows)
    ensures PassedOnMain(windows, main) > 0 <==> exists w :: w in windows && PassedThere(w, main)
  {
    if windows != [] {
      var n := |windows| - 1;
      assert windows == windows[..n] + [windows[n]];
      assert windows[n] in windows && forall w :: w in windows[..n] ==> w in windows;
      PassedOnMainIs(windows[..n], main);
      PassedWindow(windows[n], main);
    }
  }

  lemma {:induction false} BranchFires(windows: seq<Window>, context: BranchContext, config: DetectConfig)
    requires Nonempty(windows)
    ensures FindBranchIndependent(windows, context, config).Some? <==> FailsElsewhere(windows, context, config)
  {
    PassedOnMainIs(windows, config.mainBranch);
    if windows != [] { assert windows[|windows| - 1] in windows; }
  }

  // ---- the five verdicts -------------------------------------------------

  /** Exactly one of five cases, none of which mentions another verdict. */
  ghost predicate VerdictIs(h: HistoryOf, context: BranchContext, config: DetectConfig, verdict: Verdict)
    requires Nonempty(h.windows)
  {
    var s := Summaries(h.windows);
    var suspect := Unstable(s, config) || FailsElsewhere(h.windows, context, config);
    && (verdict.Flaky? <==> AnyDiverged(s) || (!Broke(s, config) && LatestFails(s) && suspect))
    && (verdict.Regression? <==> !AnyDiverged(s) && Broke(s, config))
    && (verdict.Healthy? <==> !AnyDiverged(s) && !Broke(s, config) && !LatestFails(s))
    && (verdict.NewFailure? <==>
      !AnyDiverged(s) && !Broke(s, config) && LatestFails(s) && !suspect && |h.windows| == 1)
    && (verdict.PersistentFailure? <==>
      !AnyDiverged(s) && !Broke(s, config) && LatestFails(s) && !suspect && |h.windows| > 1)
  }

  lemma {:induction false} SignalsAre(h: HistoryOf, context: BranchContext, config: DetectConfig)
    requires Nonempty(h.windows) && ConfigOk(config)
    ensures var s := Summaries(h.windows);
      var signals := SignalsOf(h, context, config);
      && (AnyDiverged(s) ==> signals != [] && signals[0].signal.SameShaDivergence?)
      && (!AnyDiverged(s) && Broke(s, config) ==> signals == [])
      && (!AnyDiverged(s) && !Broke(s, config) ==>
        (signals != [] <==> Unstable(s, config) || FailsElsewhere(h.windows, context, config))
        && forall e :: e in signals ==> !e.signal.SameShaDivergence? && !e.signal.CrossAttemptDivergence?)
  {
    var s := Summaries(h.windows);
    DivergenceFires(s);
    RegressionIff(s, config);
    BranchFires(h.windows, context, config);
  }

  /** The verdict is the case that holds. */
  lemma {:induction false} VerdictIff(identityId: nat, h: HistoryOf, context: BranchContext, merged: bool,
                                      config: DetectConfig)
    requires Nonempty(h.windows) && ConfigOk(config)
    ensures VerdictIs(h, context, config, DetectForHistory(identityId, h, context, merged, config).verdict)
  {
    var s := Summaries(h.windows);
    var signals := SignalsOf(h, context, config);
    DivergenceFires(s);
    RegressionIff(s, config);
    SignalsAre(h, context, config);
    if signals != [] { assert signals[0] in signals; }
  }

  // ---- the evidence ------------------------------------------------------

  /** Attempts of one commit that came out differently. */
  ghost predicate AttemptsDiffer(w: Summary) {
    && ((w.hasPass && w.hasFailure) || w.rerun)
    && |w.attempts| >= 2 && w.passing != {} && w.failing != {} && w.passing != w.failing
  }

  ghost predicate SomeAttemptsDiffer(windows: seq<Summary>) { exists w :: w in windows && AttemptsDiffer(w) }

  lemma {:induction false} DifferIs(w: Summary)
    ensures AttemptsDiffer(w) <==> w.DivergedAcrossAttempts()
  {
    if w.passing - w.failing == {} && w.failing - w.passing == {} {
      assert forall x :: (x in w.passing <==> x in w.failing) by {
        assert forall x :: x !in w.passing - w.failing && x !in w.failing - w.passing;
      }
      assert w.passing == w.failing;
    }
  }

  lemma {:induction false} AcrossAre(windows: seq<Summary>)
    ensures forall w :: w in AcrossAttempts(windows) <==> w in windows && AttemptsDiffer(w)
  {
    if windows != [] {
      var n := |windows| - 1;
      AcrossAre(windows[..n]);
      DifferIs(windows[n]);
      assert windows == windows[..n] + [windows[n]];
    }
  }

  /** Which signals a detection carries. */
  ghost predicate SignalsMean(h: HistoryOf, context: BranchContext, config: DetectConfig, signals: seq<Evidence>)
    requires Nonempty(h.windows)
  {
    var s := Summaries(h.windows);
    var open := AnyDiverged(s) || !Broke(s, config);
    && (Fired(signals, SameShaDivergence) <==> AnyDiverged(s))
    && (Fired(signals, CrossAttemptDivergence) <==> SomeAttemptsDiffer(s))
    && (Fired(signals, BranchIndependent) <==> open && FailsElsewhere(h.windows, context, config))
    && (Fired(signals, HistoricalInstability) <==> open && Unstable(s, config))
  }

  lemma {:induction false} AcrossFires(windows: seq<Summary>)
    ensures AcrossAttempts(DivergedWindows(windows)) != [] <==> SomeAttemptsDiffer(windows)
  {
    var diverged := DivergedWindows(windows);
    var across := AcrossAttempts(diverged);
    DivergedAre(windows);
    AcrossAre(diverged);
    assert across != [] ==> across[0] in across;
    if w :| w in windows && AttemptsDiffer(w) { assert w in diverged && w in across; }
  }

  lemma {:induction false} FiredList(found: seq<Evidence>, first: Evidence, second: Option<Evidence>, signal: Signal)
    requires found == [first] + OptionToSeq(second)
    ensures Fired(found, signal) <==> first.signal == signal || (second.Some? && second.value.signal == signal)
  {
    FiredJoin([first], OptionToSeq(second), signal);
    FiredOne(second, signal);
    assert first in [first];
  }

  lemma {:induction false} DivergenceSignals(windows: seq<Summary>, signal: Signal)
    ensures Fired(FindSameShaDivergence(windows), signal) <==>
      (signal.SameShaDivergence? && AnyDiverged(windows))
      || (signal.CrossAttemptDivergence? && SomeAttemptsDiffer(windows))
  {
    var diverged := DivergedWindows(windows);
    DivergenceFires(windows);
    AcrossFires(windows);
    if diverged != [] {
      var across := AcrossAttempts(diverged);
      var second := if across == [] then None else Some(Evidence(CrossAttemptDivergence, ObservationsIn(across)));
      FiredList(FindSameShaDivergence(windows), Evidence(SameShaDivergence, ObservationsIn(diverged)), second, signal);
    } else {
      assert !SomeAttemptsDiffer(windows);
    }
  }

  lemma {:induction false} FiredJoin(a: seq<Evidence>, b: seq<Evidence>, signal: Signal)
    ensures Fired(a + b, signal) <==> Fired(a, signal) || Fired(b, signal)
  {
    if Fired(a, signal) {
      var e :| e in a && e.signal == signal;
      assert e in a + b;
    }
    if Fired(b, signal) {
      var e :| e in b && e.signal == signal;
      assert e in a + b;
    }
  }

  lemma {:induction false} FiredOne(found: Option<Evidence>, signal: Signal)
    ensures Fired(OptionToSeq(found), signal) <==> found.Some? && found.value.signal == signal
  {
    if found.Some? { assert found.value in OptionToSeq(found); }
  }

  lemma {:induction false} SignalsMeaning(h: HistoryOf, context: BranchContext, config: DetectConfig)
    requires Nonempty(h.windows) && ConfigOk(config)
    ensures SignalsMean(h, context, config, SignalsOf(h, context, config))
  {
    var s := Summaries(h.windows);
    var divergence := FindSameShaDivergence(s);
    var branch, unstable := FindBranchIndependent(h.windows, context, config), FindHistoricalInstability(s, config);
    DivergenceFires(s);
    forall signal: Signal { DivergenceSignals(s, signal); }
    RegressionIff(s, config);
    BranchFires(h.windows, context, config);
    forall signal: Signal
      ensures Fired(divergence + OptionToSeq(branch) + OptionToSeq(unstable), signal) <==>
        Fired(divergence, signal) || (branch.Some? && branch.value.signal == signal)
        || (unstable.Some? && unstable.value.signal == signal)
    {
      FiredJoin(divergence + OptionToSeq(branch), OptionToSeq(unstable), signal);
      FiredJoin(divergence, OptionToSeq(branch), signal);
      FiredOne(branch, signal);
      FiredOne(unstable, signal);
    }
    assert !AnyDiverged(s) ==> !SomeAttemptsDiffer(s);
  }

  // ---- the confidence ----------------------------------------------------

  ghost predicate DivergedTwice(windows: seq<Summary>) {
    exists i, j :: 0 <= i < j < |windows| && windows[i].IsDiverged() && windows[j].IsDiverged()
  }

  lemma {:induction false} DivergedCount(windows: seq<Summary>)
    ensures |DivergedWindows(windows)| >= 2 <==> DivergedTwice(windows)
    ensures |DivergedWindows(windows)| >= 1 <==> exists i :: 0 <= i < |windows| && windows[i].IsDiverged()
  {
    if windows != [] {
      var n := |windows| - 1;
      var rest := windows[..n];
      DivergedCount(rest);
      assert forall i :: 0 <= i < n ==> rest[i] == windows[i];
      if DivergedTwice(rest) {
        var i, j :| 0 <= i < j < |rest| && rest[i].IsDiverged() && rest[j].IsDiverged();
        assert windows[i].IsDiverged() && windows[j].IsDiverged();
      }
    }
  }

  /** How sure a verdict is: two diverged commits or a long clean break, or more data than the minimum. */
  ghost predicate ConfidenceIs(h: HistoryOf, config: DetectConfig, verdict: Verdict, confidence: Confidence)
    requires Nonempty(h.windows)
  {
    var s := Summaries(h.windows);
    match verdict
    case Flaky =>
      if AnyDiverged(s) then confidence == if DivergedTwice(s) then High else Medium
      else
        confidence ==
          if Unstable(s, config) && (exists w :: w in s && w.observations >= 2) &&
            ObservationsIn(s) >= config.minObservations + config.minObservations
          then Medium else Low
    case Regression =>
      confidence == if LongBreak(DataWindows(s), config.(regressionPassStreak := 2 * config.regressionPassStreak))
                    then High else Medium
    case Healthy => confidence == High
    case NewFailure => confidence == Low
    case PersistentFailure => confidence == if ObservationsIn(s) < config.minObservations then Low else Medium
  }

  lemma {:induction false} LongCleanBreak(windows: seq<Summary>, config: DetectConfig)
    requires ConfigOk(config) && FindRegression(windows, config).Some?
    ensures var found := FindRegression(windows, config).value;
      found.passStreak >= config.regressionPassStreak * 2 && found.failStreak >= config.regressionFailStreak <==>
      LongBreak(DataWindows(windows), config.(regressionPassStreak := 2 * config.regressionPassStreak))
  {
    var long := config.(regressionPassStreak := 2 * config.regressionPassStreak);
    RegressionIff(windows, config);
    RegressionIff(windows, long);
  }

  lemma {:induction false} FlakyConfidence(h: HistoryOf, context: BranchContext, config: DetectConfig)
    requires Nonempty(h.windows) && ConfigOk(config)
    requires AnyDiverged(Summaries(h.windows)) || !Broke(Summaries(h.windows), config)
    ensures ConfidenceIs(h, config, Flaky, ConfidenceOf(SignalsOf(h, context, config), Summaries(h.windows), config))
  {
    SignalsMeaning(h, context, config);
    DivergedCount(Summaries(h.windows));
  }

  /** The confidence follows from the same facts. */
  lemma {:induction false} ConfidenceIff(identityId: nat, h: HistoryOf, context: BranchContext, merged: bool,
                                         config: DetectConfig)
    requires Nonempty(h.windows) && ConfigOk(config)
    ensures var d := DetectForHistory(identityId, h, context, merged, config);
      ConfidenceIs(h, config, d.verdict, d.confidence)
  {
    var s := Summaries(h.windows);
    var verdict := DetectForHistory(identityId, h, context, merged, config).verdict;
    VerdictIff(identityId, h, context, merged, config);
    DivergenceFires(s);
    RegressionIff(s, config);
    if verdict.Flaky? {
      FlakyConfidence(h, context, config);
    } else if verdict.Regression? {
      LongCleanBreak(s, config);
    }
  }

  /** What else a detection reports. */
  lemma {:induction false} DetectionReports(identityId: nat, h: HistoryOf, context: BranchContext, merged: bool,
                                            config: DetectConfig)
    requires Nonempty(h.windows) && ConfigOk(config)
    ensures var d := DetectForHistory(identityId, h, context, merged, config);
      var s := Summaries(h.windows);
      && d.identityId == identityId && d.mergedUncertain == merged && d.infraExcluded == h.infraExcluded
      && d.windows == |h.windows| && d.observations == ObservationsIn(s)
      && d.divergenceRate == DivergenceRate(s, config.ewmaAlpha)
      && d.intermittencyRate == IntermittencyRate(s, config.ewmaAlpha)
      && d.flakeRate == (if exists w :: w in s && w.observations >= 2 then d.divergenceRate else d.intermittencyRate)
      && SignalsMean(h, context, config, d.signals)
      && (d.regressionSha.Some? <==> d.verdict.Regression?)
      && (d.regressionSha.Some? ==>
        exists found :: MaximalBreak(DataWindows(s), found) && d.regressionSha == Some(found.pivotSha))
  {
    var s := Summaries(h.windows);
    SignalsMeaning(h, context, config);
    RegressionVerdictIff(identityId, h, context, merged, config);
    RegressionIff(s, config);
  }

  // ---- how much evidence a signal rests on -------------------------------

  predicate Diverges(w: Summary) { (w.hasPass && w.hasFailure) || w.rerun }

  ghost predicate DivergedPicked(windows: seq<Summary>) {
    Picking.Picked(windows, DivergedWindows(windows), Diverges)
  }

  lemma {:induction false} DivergedNone()
    ensures DivergedPicked([])
  {
    Picking.PickedNone(Diverges);
  }

  lemma {:induction false} DivergedStep(before: seq<Summary>, last: Summary, windows: seq<Summary>)
    requires windows == before + [last] && DivergedPicked(before)
    ensures DivergedPicked(windows)
  {
    Picking.PickedSnoc(before, DivergedWindows(before), Diverges, last);
    assert windows[..|windows| - 1] == before;
  }

  lemma {:induction false} DivergedArePicked(windows: seq<Summary>)
    ensures DivergedPicked(windows)
    decreases |windows|
  {
    if windows == [] {
      DivergedNone();
    } else {
      DivergedArePicked(windows[..|windows| - 1]);
      DivergedStep(windows[..|windows| - 1], windows[|windows| - 1], windows);
    }
  }

  predicate PassedOn(w: Window, main: string) { w.records != [] && PassedThere(w, main) }

  lemma {:induction false} PassedCount(windows: seq<Window>, main: string)
    requires Nonempty(windows)
    ensures PassedOnMain(windows, main) == |Picking.At(windows, (w: Window) => PassedOn(w, main))|
    decreases |windows|
  {
    var passed := (w: Window) => PassedOn(w, main);
    if windows == [] {
      Picking.AtNone(passed);
    } else {
      var n := |windows| - 1;
      assert windows[n] in windows && forall w :: w in windows[..n] ==> w in windows;
      PassedCount(windows[..n], main);
      Picking.AtSnoc(windows[..n], passed, windows[n], windows);
      PassedWindow(windows[n], main);
    }
  }

  lemma {:induction false} SignalFrom(h: HistoryOf, context: BranchContext, config: DetectConfig, e: Evidence)
    requires Nonempty(h.windows) && e in SignalsOf(h, context, config)
    ensures var s := Summaries(h.windows);
      || e in FindSameShaDivergence(s) || Some(e) == FindBranchIndependent(h.windows, context, config)
      || Some(e) == FindHistoricalInstability(s, config)
  {
  }

  lemma {:induction false} DivergenceCounts(windows: seq<Summary>, e: Evidence)
    requires e in FindSameShaDivergence(windows)
    ensures e.signal.SameShaDivergence? || e.signal.CrossAttemptDivergence?
    ensures e.signal.SameShaDivergence? ==> e.observations == ObservationsIn(DivergedWindows(windows))
  {
  }

  lemma {:induction false} BranchCounts(windows: seq<Window>, context: BranchContext, config: DetectConfig, e: Evidence)
    requires Nonempty(windows) && Some(e) == FindBranchIndependent(windows, context, config)
    ensures e.signal.BranchIndependent?
    ensures e.observations == |Picking.At(windows, (w: Window) => PassedOn(w, config.mainBranch))|
  {
    PassedCount(windows, config.mainBranch);
  }

  ghost predicate CountsDiverged(windows: seq<Summary>, n: nat) {
    exists picked :: Picking.Picked(windows, picked, Diverges) && n == ObservationsIn(picked)
  }

  /** A signal counts the observations of the diverged commits, the commits that passed on the main branch, or all the
      observations there are. */
  lemma {:induction false} EvidenceCounts(h: HistoryOf, context: BranchContext, config: DetectConfig, e: Evidence)
    requires Nonempty(h.windows) && e in SignalsOf(h, context, config)
    ensures e.signal.SameShaDivergence? ==> CountsDiverged(Summaries(h.windows), e.observations)
    ensures e.signal.BranchIndependent? ==>
      e.observations == |Picking.At(h.windows, (w: Window) => PassedOn(w, config.mainBranch))|
    ensures e.signal.HistoricalInstability? ==> e.observations == ObservationsIn(Summaries(h.windows))
  {
    var s := Summaries(h.windows);
    SignalFrom(h, context, config, e);
    if e in FindSameShaDivergence(s) {
      DivergenceCounts(s, e);
      DivergedArePicked(s);
    } else if Some(e) == FindBranchIndependent(h.windows, context, config) {
      BranchCounts(h.windows, context, config, e);
    }
  }

  /** Observations add up window by window. */
  lemma {:induction false} ObservationsAdd(windows: seq<Summary>, more: seq<Summary>)
    ensures ObservationsIn(windows + more) == ObservationsIn(windows) + ObservationsIn(more)
    ensures |windows| == 1 ==> ObservationsIn(windows) == windows[0].observations
    decreases |more|
  {
    if more == [] {
      assert windows + more == windows;
    } else {
      var n := |more| - 1;
      ObservationsAdd(windows, more[..n]);
      assert (windows + more)[..|windows| + n] == windows + more[..n];
    }
  }
}

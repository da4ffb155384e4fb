/** A store for which repeating `policy --apply` is no fixpoint: one test that failed and, at the same commit, then
    passed, under the same name or renamed in between. Detection condemns it for the divergence; its newest execution
    is already clean enough to release it. */
module ApplyAgain {
  import opened Models
  import opened Tables
  import opened AliasGraph
  import opened Store
  import opened History
  import opened HistoryLaws
  import opened Rates
  import opened Detector
  import opened Quarantine
  import opened Records
  import opened Policy
  import opened PolicyLaws
  import DetectAll
  import Sorting
  import TopK

  function Result(outcome: Outcome): TestCaseResult {
    TestCaseResult("t", "c", "s", None, None, None, outcome, None, None, None, None, None, false, "f")
  }

  const FIRST := RunRow("r", 1, 7, "", "", "", 0)
  const RETRY := RunRow("r", 2, 7, "", "", "", 1)
  /** The identity the test was last seen under, and is reported under. */
  function Primary(renamed: bool): nat { if renamed then 1 else 0 }

  function StoreOf(renamed: bool): Tables {
    Tables([FIRST, RETRY],
           [TestIdentity(1, "s", "t", "", None)] + if renamed then [TestIdentity(2, "s", "u", "", None)] else [],
           [ExecutionRow(0, 0, Result(Fail)), ExecutionRow(1, Primary(renamed), Result(Pass))],
           if renamed then [AliasRow(0, 1, 0.9, true, 1)] else [], map[])
  }

  const POLICY := PolicyConfig(0.5, 2, 14, 1)

  function Failure(renamed: bool): ExecutionRecord { RecordAt(StoreOf(renamed).runs, StoreOf(renamed).executions, 0) }

  function Success(renamed: bool): ExecutionRecord { RecordAt(StoreOf(renamed).runs, StoreOf(renamed).executions, 1) }

  function NewestFirst(renamed: bool): seq<ExecutionRecord> { [Success(renamed), Failure(renamed)] }

  lemma {:induction false} StoreIsValid(renamed: bool)
    ensures Valid(StoreOf(renamed))
  {
  }

  /** The test is one logical test, under whichever name. */
  lemma {:induction false} OneTest(renamed: bool)
    ensures Component(StoreOf(renamed).aliases, Primary(renamed)) == if renamed then {0, 1} else {0}
    ensures IsGroup(StoreOf(renamed).aliases, Primary(renamed), if renamed then [0, 1] else [0], false)
  {
    var aliases, id := StoreOf(renamed).aliases, Primary(renamed);
    var ids := if renamed then {0, 1} else {0};
    ComponentIsConnected(aliases, id);
    ConnectedSelf(aliases, id);
    if renamed {
      assert aliases[0] in aliases && Joins(aliases[0], 1, 0);
      ConnectedStep(aliases, 1, 1, 0);
    }
    assert Closed(aliases, ids);
    forall x | Connected(aliases, id, x) ensures x in ids {
      var p :| WalkBetween(aliases, p, id, x);
      ClosedContains(aliases, ids, p, id, x);
    }
  }

  lemma {:induction false} JoinedRows(renamed: bool)
    ensures AllRows(StoreOf(renamed), if renamed then {0, 1} else {0}) == [Failure(renamed), Success(renamed)]
  {
    var t, keep := StoreOf(renamed), if renamed then {0, 1} else {0};
    assert Rows(t.runs, t.executions, keep, 0) == [];
    assert Rows(t.runs, t.executions, keep, 1) == [Failure(renamed)];
  }

  lemma {:induction false} Sorted(renamed: bool)
    ensures Sorting.SortBy([Failure(renamed), Success(renamed)], NewerFirst) == NewestFirst(renamed)
  {
    var failure, success := Failure(renamed), Success(renamed);
    assert [failure, success][1..] == [success];
    assert Sorting.SortBy([success], NewerFirst) == [success];
    assert Sorting.InsertBy(failure, [], NewerFirst) == [failure];
  }

  lemma {:induction false} WholeHistory(renamed: bool, limit: nat)
    requires limit >= 2
    ensures NewestOf(StoreOf(renamed), Component(StoreOf(renamed).aliases, Primary(renamed)), Some(limit)) ==
      NewestFirst(renamed)
  {
    OneTest(renamed);
    JoinedRows(renamed);
    Sorted(renamed);
    TopK.TakeIsPrefix(NewestFirst(renamed), limit);
  }

  lemma {:induction false} AllSince(renamed: bool)
    ensures DetectAll.Since(NewestFirst(renamed), None) == NewestFirst(renamed)
  {
    assert NewestFirst(renamed)[1..] == [Failure(renamed)];
    assert DetectAll.Since([Failure(renamed)], None) == [Failure(renamed)];
  }

  // ---- what detection sees -----------------------------------------------

  function OneWindow(renamed: bool): HistoryOf { HistoryOf([Window(7, NewestFirst(renamed))], 0, 0) }

  /** A pass and a failure at one commit. */
  predicate PassThenFail(a: ExecutionRecord, b: ExecutionRecord) {
    a.outcome.Pass? && b.outcome.Fail? && a.commitSha == b.commitSha == 7
  }

  lemma {:induction false} BothKept(a: ExecutionRecord, b: ExecutionRecord, platform: ExecutionRecord -> bool)
    requires PassThenFail(a, b)
    ensures Kept([a, b], platform) == [a, b] && InfraCount([a, b], platform) == 0
  {
    var records := [a, b];
    assert records[..1] == [a] && [a][..0] == [];
    assert Kept([a], platform) == [a] && KeptLength([a], platform) == 1;
  }

  lemma {:induction false} OneCommit(a: ExecutionRecord, b: ExecutionRecord)
    requires PassThenFail(a, b)
    ensures SkipCount([a, b]) == 0 && OfSha([a, b], 7) == [a, b] && Shas([a, b]) == {7}
  {
    var records := [a, b];
    assert records[..1] == [a] && [a][..0] == [];
    assert SkipCount([a]) == 0 && OfSha([a], 7) == [a];
  }

  lemma {:induction false} NothingExcluded(renamed: bool, platform: ExecutionRecord -> bool)
    ensures Kept(NewestFirst(renamed), platform) == NewestFirst(renamed)
    ensures InfraCount(NewestFirst(renamed), platform) == 0 && SkipCount(NewestFirst(renamed)) == 0
    ensures OfSha(NewestFirst(renamed), 7) == NewestFirst(renamed) && Shas(NewestFirst(renamed)) == {7}
  {
    BothKept(Success(renamed), Failure(renamed), platform);
    OneCommit(Success(renamed), Failure(renamed));
  }

  lemma {:induction false} IsItsHistory(renamed: bool, platform: ExecutionRecord -> bool)
    ensures IsHistory(OneWindow(renamed), NewestFirst(renamed), platform) && Nonempty(OneWindow(renamed).windows)
  {
    NothingExcluded(renamed, platform);
    var w := Window(7, NewestFirst(renamed));
    assert OneWindow(renamed).windows == [w];
    assert forall x :: x in [w] <==> x == w;
  }

  lemma {:induction false} TwoObserved(a: ExecutionRecord, b: ExecutionRecord)
    requires PassThenFail(a, b)
    ensures Summarize(Window(7, [a, b])).IsDiverged() && Summarize(Window(7, [a, b])).observations == 2
  {
    var records := [a, b];
    assert a in records && b in records;
    assert records == [] + [a] + [b] && [a][..0] == [];
    WeighAppend([], [a], CountsIfObserved);
    WeighAppend([a], [b], CountsIfObserved);
  }

  lemma {:induction false} WindowDiverged(renamed: bool)
    ensures Nonempty(OneWindow(renamed).windows)
    ensures var s := Summaries(OneWindow(renamed).windows);
      |s| == 1 && s[0].IsDiverged() && s[0].observations == 2
  {
    TwoObserved(Success(renamed), Failure(renamed));
  }

  lemma {:induction false} OneDiverged(s: seq<Summary>, alpha: real)
    requires |s| == 1 && s[0].IsDiverged() && s[0].observations == 2
    ensures FlakeRate(s, alpha) == 1.0 && ObservationsIn(s) == 2
  {
    assert s[0] in s && s[..0] == [];
    assert DataWindows(s) == s;
    assert DivergenceIndicators(s) == [1.0];
  }

  /** The detection of this history, whatever the patterns, the branch context and the thresholds. */
  lemma {:induction false} Detected(renamed: bool, context: BranchContext, config: DetectConfig)
    ensures Nonempty(OneWindow(renamed).windows)
    ensures var d := DetectForHistory(Primary(renamed), OneWindow(renamed), context, false, config);
      d.identityId == Primary(renamed) && d.verdict.Flaky? && d.flakeRate == 1.0 && d.observations == 2
  {
    WindowDiverged(renamed);
    var s := Summaries(OneWindow(renamed).windows);
    assert s[0] in s;
    DivergenceWins(Primary(renamed), OneWindow(renamed), context, false, config);
    OneDiverged(s, config.ewmaAlpha);
  }

  lemma {:induction false} NewestIsClean(renamed: bool)
    ensures Clean(Recent(StoreOf(renamed), Primary(renamed)), 1)
  {
    WholeHistory(renamed, RECENT_LIMIT);
    var records := NewestFirst(renamed);
    assert records[..1] == [Success(renamed)] && Passes([Success(renamed)]) == 1;
    assert CleanStretch(records, 1, 1);
  }

  lemma {:induction false} ReportIs(t: Tables, id: nat, ids: seq<nat>, h: HistoryOf, platform: ExecutionRecord -> bool,
                                    context: HistoryOf -> BranchContext, detect: DetectConfig)
    requires IsGroup(t.aliases, id, ids, false) && ids != [] && ids[|ids| - 1] == id < |t.identities|
    requires IsHistory(h, DetectAll.Evidence(t, id, detect, None), platform) && Nonempty(h.windows)
    ensures
      var d := DetectForHistory(id, h, context(h), false, detect);
      DetectAll.Reports(t, d, id, platform, context, detect, None)
  {
  }

  lemma {:induction false} IsReported(renamed: bool, platform: ExecutionRecord -> bool,
                                      context: HistoryOf -> BranchContext, detect: DetectConfig)
    requires detect.windowExecutions >= 2
    ensures Nonempty(OneWindow(renamed).windows)
    ensures
      var h := OneWindow(renamed);
      DetectAll.Reports(StoreOf(renamed), DetectForHistory(Primary(renamed), h, context(h), false, detect),
        Primary(renamed), platform, context, detect, None)
  {
    WholeHistory(renamed, detect.windowExecutions);
    AllSince(renamed);
    IsItsHistory(renamed, platform);
    OneTest(renamed);
    var ids: seq<nat> := if renamed then [0, 1] else [0];
    ReportIs(StoreOf(renamed), Primary(renamed), ids, OneWindow(renamed), platform, context, detect);
  }

  predicate IsItsDetection(renamed: bool, d: Detection) {
    d.identityId == Primary(renamed) && d.verdict.Flaky? && d.flakeRate == 1.0 && d.observations == 2
  }

  lemma {:induction false} IsRestless(renamed: bool, d: Detection)
    requires IsItsDetection(renamed, d)
    ensures Restless(StoreOf(renamed), d, map[], POLICY)
  {
    NewestIsClean(renamed);
    RecommendedIff(d, None, false, POLICY, 0);
  }

  lemma {:induction false} RestlessChanges(t: Tables, d: Detection, rows: seq<Row>, now: int)
    requires Restless(t, d, map[], POLICY)
    ensures var after := Applied(t, [d], map[], rows, POLICY, now);
      Applied(t, [d], map[], after, POLICY, now) != after
  {
    assert Restless(t, [d][0], map[], POLICY);
    ApplyTwiceIff(t, [d], map[], rows, POLICY, now);
  }

  /** A valid store, and the detection the detector makes of it, for which applying the policy again at the same
      instant always changes the table, whatever was in it. */
  lemma {:induction false} ApplyingAgainChanges(renamed: bool, platform: ExecutionRecord -> bool,
                                                context: HistoryOf -> BranchContext, detect: DetectConfig,
                                                rows: seq<Row>, now: int) returns (d: Detection)
    requires detect.windowExecutions >= 2
    ensures Valid(StoreOf(renamed)) && PolicyOk(POLICY)
    ensures DetectAll.Reports(StoreOf(renamed), d, Primary(renamed), platform, context, detect, None)
    ensures var after := Applied(StoreOf(renamed), [d], map[], rows, POLICY, now);
      Applied(StoreOf(renamed), [d], map[], after, POLICY, now) != after
  {
    StoreIsValid(renamed);
    IsReported(renamed, platform, context, detect);
    Detected(renamed, context(OneWindow(renamed)), detect);
    d := DetectForHistory(Primary(renamed), OneWindow(renamed), context(OneWindow(renamed)), false, detect);
    IsRestless(renamed, d);
    RestlessChanges(StoreOf(renamed), d, rows, now);
  }
}

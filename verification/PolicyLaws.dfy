/** Properties of the quarantine lifecycle over whole runs, and of repeating `policy --apply`. */
module PolicyLaws {
  import opened Models
  import opened Tables
  import opened AliasGraph
  import opened Store
  import opened Detector
  import opened Quarantine
  import opened Records
  import opened RecordLaws
  import opened Policy
  import Sorting
  import TopK

  // ---- every sequence of operations --------------------------------------

  datatype Step =
    | Record(r: Recommendation, now: int)
    | ExpireOverdue(now: int)
    | Release(id: nat, cleanRuns: nat, now: int)
    | Apply(t: Tables, detections: seq<Detection>, classified: map<nat, CauseCode>, config: PolicyConfig, now: int)

  ghost function Do(rows: seq<Row>, s: Step): seq<Row> {
    match s
    case Record(r, now) => RecordOne(rows, r, Recommended, now)
    case ExpireOverdue(now) => ExpireAll(rows, now)
    case Release(id, cleanRuns, now) => CloseAt(rows, id, Released, CleanExecutions(cleanRuns), now)
    case Apply(t, detections, classified, config, now) => Applied(t, detections, classified, rows, config, now)
  }

  ghost function After(steps: seq<Step>): seq<Row> {
    if steps == [] then [] else Do(After(steps[..|steps| - 1]), steps[|steps| - 1])
  }

  lemma {:induction false} ReleaseKeeps(t: Tables, rows: seq<Row>, config: PolicyConfig, now: int)
    requires Sound(rows)
    ensures Sound(ReleaseAll(t, rows, config, now)) && Evolves(rows, ReleaseAll(t, rows, config, now))
  {
    var after := ReleaseAll(t, rows, config, now);
    forall i | 0 <= i < |rows| ensures RowOk(after[i]) && RowEvolves(rows[i], after[i]) {
      assert RowOk(rows[i]) && after[i] == Checked(t, rows[i], config, now);
    }
    ClosingKeeps(rows, after);
  }

  lemma {:induction false} ApplyKeeps(t: Tables, detections: seq<Detection>, classified: map<nat, CauseCode>,
                                      rows: seq<Row>, config: PolicyConfig, now: int)
    requires Sound(rows)
    ensures Sound(Applied(t, detections, classified, rows, config, now))
    ensures Evolves(rows, Applied(t, detections, classified, rows, config, now))
  {
    var kept := ExpireAll(rows, now);
    var recorded := Recorded(detections, classified, rows, config, now);
    ExpireKeeps(rows, now);
    RecordAllKeeps(kept, Chosen(Recommend(detections, classified, OpenIdsIn(kept), config, now)), now);
    ReleaseKeeps(t, recorded, config, now);
    EvolvesTransitive(rows, kept, recorded);
    EvolvesTransitive(rows, recorded, Applied(t, detections, classified, rows, config, now));
  }

  lemma {:induction false} DoKeeps(rows: seq<Row>, s: Step)
    requires Sound(rows)
    ensures Sound(Do(rows, s)) && Evolves(rows, Do(rows, s))
  {
    match s
    case Record(r, now) => RecordOneKeeps(rows, r, Recommended, now);
    case ExpireOverdue(now) => ExpireKeeps(rows, now);
    case Release(id, cleanRuns, now) => CloseKeeps(rows, id, cleanRuns, now);
    case Apply(t, detections, classified, config, now) => ApplyKeeps(t, detections, classified, rows, config, now);
  }

  /** After any operations in any order: one open row per identity, every closed row says why, and every
      expired row was overdue when it was closed. */
  lemma {:induction false} EveryLifecycleIsSound(steps: seq<Step>)
    ensures Sound(After(steps))
  {
    if steps != [] {
      EveryLifecycleIsSound(steps[..|steps| - 1]);
      DoKeeps(After(steps[..|steps| - 1]), steps[|steps| - 1]);
    }
  }

  /** From any point on, rows stay where they are, closed ones for good. */
  lemma {:induction false} ClosedIsForever(steps: seq<Step>, n: nat)
    requires n <= |steps|
    ensures Evolves(After(steps[..n]), After(steps))
  {
    if n == |steps| {
      assert steps[..n] == steps;
    } else {
      var rest := steps[..|steps| - 1];
      ClosedIsForever(rest, n);
      assert rest[..n] == steps[..n];
      EveryLifecycleIsSound(rest);
      DoKeeps(After(rest), steps[|steps| - 1]);
      EvolvesTransitive(After(steps[..n]), After(rest), After(steps));
    }
  }

  // ---- releases are earned -----------------------------------------------

  predicate CleanOrSkipped(r: ExecutionRecord) { r.outcome.Pass? || r.outcome.Skip? }

  function Passes(records: seq<ExecutionRecord>): nat {
    if records == [] then 0 else (if records[0].outcome.Pass? then 1 else 0) + Passes(records[1..])
  }

  /** Read back from the newest record: only passes and skips, with at least `required` passes among them. */
  ghost predicate CleanStretch(records: seq<ExecutionRecord>, n: nat, required: nat) {
    && n <= |records|
    && (forall i :: 0 <= i < n ==> CleanOrSkipped(records[i]))
    && Passes(records[..n]) >= required
  }

  ghost predicate Clean(records: seq<ExecutionRecord>, required: nat) {
    exists n: nat :: CleanStretch(records, n, required)
  }

  lemma {:induction false} FlagsOf(records: seq<ExecutionRecord>)
    requires records != []
    ensures CleanRuns(Flags(records)) ==
      if records[0].outcome.Skip? then CleanRuns(Flags(records[1..]))
      else if records[0].outcome.Pass? then 1 + CleanRuns(Flags(records[1..])) else 0
  {
    if records[0].outcome.Skip? {
      assert Flags(records) == Flags(records[1..]);
    } else {
      assert Flags(records)[1..] == Flags(records[1..]);
    }
  }

  lemma {:induction false} StretchIsClean(records: seq<ExecutionRecord>, n: nat, required: nat)
    requires CleanStretch(records, n, required)
    ensures CleanRuns(Flags(records)) >= required
  {
    if n > 0 {
      var rest := records[1..];
      assert records[..n][1..] == rest[..n - 1];
      assert records[..n][0] == records[0];
      var left := if records[0].outcome.Pass? && required > 0 then required - 1 else required;
      forall i | 0 <= i < n - 1 ensures CleanOrSkipped(rest[i]) { assert rest[i] == records[i + 1]; }
      assert CleanOrSkipped(records[0]);
      StretchIsClean(rest, n - 1, left);
      FlagsOf(records);
    }
  }

  lemma {:induction false} CleanHasStretch(records: seq<ExecutionRecord>, required: nat) returns (n: nat)
    requires CleanRuns(Flags(records)) >= required
    ensures CleanStretch(records, n, required)
  {
    n := 0;
    if required > 0 {
      assert records != [];
      var rest := records[1..];
      var passed := records[0].outcome.Pass?;
      FlagsOf(records);
      var m := CleanHasStretch(rest, if passed then required - 1 else required);
      n := m + 1;
      assert records[..n][1..] == rest[..m];
      assert records[..n][0] == records[0];
      forall i | 0 <= i < n ensures CleanOrSkipped(records[i]) {
        if i > 0 { assert records[i] == rest[i - 1]; }
      }
    }
  }

  /** The release rule, read off the history: failures reset the count, skips neither reset nor advance it. */
  lemma {:induction false} ReleaseIff(records: seq<ExecutionRecord>, config: PolicyConfig)
    ensures ShouldRelease(CleanRuns(Flags(records)), config) <==> Clean(records, config.cleanRuns)
  {
    if ShouldRelease(CleanRuns(Flags(records)), config) {
      var n := CleanHasStretch(records, config.cleanRuns);
    }
    if Clean(records, config.cleanRuns) {
      var n: nat :| CleanStretch(records, n, config.cleanRuns);
      StretchIsClean(records, n, config.cleanRuns);
    }
  }

  /** Every row that an `--apply` releases, old or new, had the required clean history, and says how much. */
  lemma {:induction false} ReleasesAreEarned(t: Tables, detections: seq<Detection>, classified: map<nat, CauseCode>,
                                             rows: seq<Row>, config: PolicyConfig, now: int, i: nat)
    requires i < |Applied(t, detections, classified, rows, config, now)|
    requires i < |rows| ==> rows[i].state.IsOpen()
    requires Applied(t, detections, classified, rows, config, now)[i].state.Released?
    ensures var r := Applied(t, detections, classified, rows, config, now)[i];
      && Clean(Recent(t, r.identityId), config.cleanRuns)
      && r.closedAt == Some(now) && r.closeReason == Some(CleanExecutions(CleanNow(t, r.identityId)))
  {
    var kept := ExpireAll(rows, now);
    var chosen := Chosen(Recommend(detections, classified, OpenIdsIn(kept), config, now));
    var recorded := Recorded(detections, classified, rows, config, now);
    RecordAppends(kept, chosen, now);
    if i < |kept| {
      assert recorded[i] == recorded[..|kept|][i];
    } else {
      assert MadeFrom(recorded[i], chosen, now);
    }
    ReleaseIff(Recent(t, recorded[i].identityId), config);
  }

  lemma {:induction false} PassesFit(records: seq<ExecutionRecord>)
    ensures Passes(records) <= |records|
  {
    if records != [] { PassesFit(records[1..]); }
  }

  /** A requirement beyond the 50 executions the check looks at can never be met. */
  lemma {:induction false} NeverReleased(t: Tables, r: Row, config: PolicyConfig, now: int)
    requires config.cleanRuns > RECENT_LIMIT
    ensures Checked(t, r, config, now) == r
  {
    var records := Recent(t, r.identityId);
    ReleaseIff(records, config);
    if Clean(records, config.cleanRuns) {
      var n: nat :| CleanStretch(records, n, config.cleanRuns);
      PassesFit(records[..n]);
      TopK.TakeIsPrefix(Sorting.SortBy(AllRows(t, Component(t.aliases, r.identityId)), NewerFirst), RECENT_LIMIT);
      assert false;
    }
  }

  lemma {:induction false} PassesPrefix(records: seq<ExecutionRecord>, n: nat)
    requires n <= |records|
    ensures Passes(records[..n]) <= Passes(records)
  {
    if n > 0 {
      assert records[..n][0] == records[0] && records[..n][1..] == records[1..][..n - 1];
      PassesPrefix(records[1..], n - 1);
    }
  }

  lemma {:induction false} CleanPrefixIff(records: seq<ExecutionRecord>, n: nat, required: nat)
    requires n <= |records|
    ensures Clean(records[..n], required) <==> Clean(records, required) && Passes(records[..n]) >= required
  {
    var newest := records[..n];
    if Clean(newest, required) {
      var m: nat :| CleanStretch(newest, m, required);
      assert newest[..m] == records[..m];
      forall i | 0 <= i < m ensures CleanOrSkipped(records[i]) { assert newest[i] == records[i]; }
      PassesPrefix(newest, m);
      assert CleanStretch(records, m, required);
    }
    if Clean(records, required) && Passes(newest) >= required {
      var m: nat :| CleanStretch(records, m, required);
      forall i | 0 <= i < n && i < m ensures CleanOrSkipped(newest[i]) { assert newest[i] == records[i]; }
      if m <= n {
        assert newest[..m] == records[..m];
        assert CleanStretch(newest, m, required);
      } else {
        assert newest[..n] == newest;
        assert CleanStretch(newest, n, required);
      }
    }
  }

  /** The limit counts skips, which are dropped only after it: a clean stretch of the whole history is hidden exactly
      when the newest 50 executions hold fewer passes than required. */
  lemma {:induction false} LimitHidesIff(t: Tables, id: nat, required: nat)
    ensures Clean(Recent(t, id), required) <==>
      Clean(MergedHistory(t, id), required) && Passes(Recent(t, id)) >= required
  {
    TopK.TakeIsPrefix(MergedHistory(t, id), RECENT_LIMIT);
    assert Recent(t, id) == MergedHistory(t, id)[..|Recent(t, id)|];
    CleanPrefixIff(MergedHistory(t, id), |Recent(t, id)|, required);
  }

  function PassedResult(): TestCaseResult {
    TestCaseResult("t", "c", "s", None, None, None, Pass, None, None, None, None, None, false, "f")
  }

  /** A store whose one test passed in each of `n` runs. */
  function AllPassing(n: nat): Tables {
    Tables(seq(n, (i: nat) => RunRow("r", i, 0, "", "", "", i)), [TestIdentity(1, "s", "t", "", None)],
           seq(n, (i: nat) => ExecutionRow(i, 0, PassedResult())), [], map[])
  }

  lemma {:induction false} PassingRows(n: nat, keep: set<nat>, m: nat)
    requires m <= n && 0 in keep
    ensures var rows := Rows(AllPassing(n).runs, AllPassing(n).executions, keep, m);
      |rows| == m && forall r :: r in rows ==> r.outcome.Pass?
  {
    if m > 0 { PassingRows(n, keep, m - 1); }
  }

  lemma {:induction false} AllPass(records: seq<ExecutionRecord>)
    requires forall r :: r in records ==> r.outcome.Pass?
    ensures Clean(records, |records|)
  {
    PassesOf(records);
    assert records[..|records|] == records;
    assert CleanStretch(records, |records|, |records|);
  }

  lemma {:induction false} PassesOf(records: seq<ExecutionRecord>)
    requires forall r :: r in records ==> r.outcome.Pass?
    ensures Passes(records) == |records|
  {
    if records != [] {
      assert records[0] in records && forall r :: r in records[1..] ==> r in records;
      PassesOf(records[1..]);
    }
  }

  lemma {:induction false} NewestPass(t: Tables, id: nat)
    requires var rows := AllRows(t, Component(t.aliases, id));
      |rows| <= RECENT_LIMIT && forall r :: r in rows ==> r.outcome.Pass?
    ensures Clean(Recent(t, id), |AllRows(t, Component(t.aliases, id))|)
  {
    var rows := AllRows(t, Component(t.aliases, id));
    Sorting.SortElements(rows, NewerFirst);
    Sorting.SameElements(MergedHistory(t, id), rows);
    TopK.TakeIsPrefix(MergedHistory(t, id), RECENT_LIMIT);
    AllPass(Recent(t, id));
  }

  lemma {:induction false} PassingIsValid(n: nat)
    ensures Valid(AllPassing(n))
  {
  }

  lemma {:induction false} PassingIsClean(n: nat)
    requires n <= RECENT_LIMIT
    ensures Clean(Recent(AllPassing(n), 0), n)
  {
    var t := AllPassing(n);
    ComponentIsConnected(t.aliases, 0);
    ConnectedSelf(t.aliases, 0);
    PassingRows(n, Component(t.aliases, 0), n);
    NewestPass(t, 0);
  }

  ghost predicate Releases(t: Tables, r: Row, config: PolicyConfig, now: int) {
    Valid(t) && r.state.IsOpen() && Checked(t, r, config, now).state.Released?
  }

  /** Some history meets the requirement if and only if it is at most the 50 executions the check looks at. */
  lemma {:induction false} ReleasableIff(config: PolicyConfig, now: int)
    ensures (exists t, r :: Releases(t, r, config, now)) <==> config.cleanRuns <= 50
  {
    if t, r :| Releases(t, r, config, now) {
      if config.cleanRuns > RECENT_LIMIT { NeverReleased(t, r, config, now); }
    }
    if config.cleanRuns <= RECENT_LIMIT {
      var t := AllPassing(config.cleanRuns);
      var r := Row(0, Recommended, Unknown, 0.0, 0, 1, config.cleanRuns, now, now + 1, None, None);
      PassingIsValid(config.cleanRuns);
      PassingIsClean(config.cleanRuns);
      ReleaseIff(Recent(t, 0), config);
      assert Releases(t, r, config, now);
    }
  }

  // ---- repeating --apply at one instant ----------------------------------

  lemma {:induction false} ChosenAre(rs: seq<Recommendation>)
    ensures forall r :: r in Chosen(rs) <==> r in rs && r.recommended
  {
    if rs != [] {
      ChosenAre(rs[..|rs| - 1]);
      assert rs == rs[..|rs| - 1] + [rs[|rs| - 1]];
    }
  }

  /** A test is recommended exactly when the evidence condemns it, its classification does not veto, and its identity
      has no open row. */
  lemma {:induction false} RecommendIff(detections: seq<Detection>, classified: map<nat, CauseCode>, rows: seq<Row>,
                                        config: PolicyConfig, now: int, i: nat)
    requires i < |detections|
    ensures var d := detections[i];
      var id := d.identityId;
      Recommend(detections, classified, OpenIdsIn(rows), config, now)[i].recommended <==>
      && d.verdict.Flaky? && d.observations >= config.minObservations && d.flakeRate > config.quarantineFlakeRate
      && (id in classified ==> classified[id] != RealRegression && classified[id] != InfraFlake)
      && forall k :: 0 <= k < |rows| && rows[k].identityId == id ==>
          !rows[k].state.Recommended? && !rows[k].state.Active?
  {
    var id := detections[i].identityId;
    RecommendedIff(detections[i], Latest(classified, id), id in OpenIdsIn(rows), config, now);
    assert id in OpenIdsIn(rows) <==>
      exists k :: 0 <= k < |rows| && rows[k].identityId == id && rows[k].state.IsOpen();
  }

  lemma {:induction false} ChosenExpiry(detections: seq<Detection>, classified: map<nat, CauseCode>, open: set<nat>,
                                        config: PolicyConfig, now: int, row: Row)
    requires config.ttlDays >= 1
    requires MadeFrom(row, Chosen(Recommend(detections, classified, open, config, now)), now)
    ensures row.state.IsOpen() && row.expiresAt > now
  {
    ChosenAre(Recommend(detections, classified, open, config, now));
  }

  /** No open row is overdue once `--apply` has run, the ones it just recorded included. */
  lemma {:induction false} NothingOverdue(t: Tables, detections: seq<Detection>, classified: map<nat, CauseCode>,
                                          rows: seq<Row>, config: PolicyConfig, now: int)
    requires config.ttlDays >= 1
    ensures forall i :: 0 <= i < |Applied(t, detections, classified, rows, config, now)| ==>
      !Overdue(Applied(t, detections, classified, rows, config, now)[i], now)
  {
    var kept := ExpireAll(rows, now);
    var chosen := Chosen(Recommend(detections, classified, OpenIdsIn(kept), config, now));
    var recorded := Recorded(detections, classified, rows, config, now);
    RecordAppends(kept, chosen, now);
    forall i | 0 <= i < |recorded| ensures !Overdue(Checked(t, recorded[i], config, now), now) {
      if i < |kept| {
        assert recorded[i] == recorded[..|kept|][i];
      } else {
        ChosenExpiry(detections, classified, OpenIdsIn(kept), config, now, recorded[i]);
      }
    }
  }

  /** The policy would quarantine the test and the release rule would release it, both on today's evidence. */
  ghost predicate Restless(t: Tables, d: Detection, classified: map<nat, CauseCode>, config: PolicyConfig) {
    && Evaluate(d, Latest(classified, d.identityId), false, config, 0).recommended
    && Clean(Recent(t, d.identityId), config.cleanRuns)
  }

  ghost predicate Picked(chosen: seq<Recommendation>, id: nat) {
    exists r :: r in chosen && r.recommended && r.identityId == id
  }

  lemma {:induction false} RecommendAt(detections: seq<Detection>, classified: map<nat, CauseCode>, open: set<nat>,
                                       config: PolicyConfig, now: int, k: nat)
    requires k < |detections|
    requires Evaluate(detections[k], Latest(classified, detections[k].identityId), false, config, 0).recommended
    requires detections[k].identityId !in open
    ensures Picked(Chosen(Recommend(detections, classified, open, config, now)), detections[k].identityId)
  {
    var rs := Recommend(detections, classified, open, config, now);
    ChosenAre(rs);
    assert rs[k] in rs;
  }

  /** Before the release check, a test the policy condemns has an open row: it had one, or it just got one. */
  lemma {:induction false} CondemnedIsOpen(detections: seq<Detection>, classified: map<nat, CauseCode>, rows: seq<Row>,
                                           config: PolicyConfig, now: int, k: nat)
    requires k < |detections|
    requires Evaluate(detections[k], Latest(classified, detections[k].identityId), false, config, 0).recommended
    ensures HasOpen(Recorded(detections, classified, rows, config, now), detections[k].identityId)
  {
    var kept, id := ExpireAll(rows, now), detections[k].identityId;
    var chosen := Chosen(Recommend(detections, classified, OpenIdsIn(kept), config, now));
    var recorded := Recorded(detections, classified, rows, config, now);
    if id in OpenIdsIn(kept) {
      RecordAppends(kept, chosen, now);
      var i :| 0 <= i < |kept| && kept[i].state.IsOpen() && kept[i].identityId == id;
      assert recorded[i] == recorded[..|kept|][i];
    } else {
      RecommendAt(detections, classified, OpenIdsIn(kept), config, now, k);
      var r :| r in chosen && r.recommended && r.identityId == id;
      RecordedIsOpen(kept, chosen, now, r);
    }
  }

  lemma {:induction false} CheckedTwice(t: Tables, rows: seq<Row>, config: PolicyConfig, now: int)
    ensures ReleaseAll(t, ReleaseAll(t, rows, config, now), config, now) == ReleaseAll(t, rows, config, now)
  {
  }

  lemma {:induction false} OpenAfterRelease(t: Tables, rows: seq<Row>, config: PolicyConfig, now: int, id: nat)
    ensures HasOpen(ReleaseAll(t, rows, config, now), id) <==>
      HasOpen(rows, id) && !Clean(Recent(t, id), config.cleanRuns)
  {
    var after := ReleaseAll(t, rows, config, now);
    ReleaseIff(Recent(t, id), config);
    if HasOpen(after, id) {
      var i :| 0 <= i < |after| && after[i].identityId == id && after[i].state.IsOpen();
      assert after[i] == Checked(t, rows[i], config, now);
    }
    if HasOpen(rows, id) && !Clean(Recent(t, id), config.cleanRuns) {
      var i :| 0 <= i < |rows| && rows[i].identityId == id && rows[i].state.IsOpen();
      assert after[i] == Checked(t, rows[i], config, now);
    }
  }

  lemma {:induction false} CondemnedStaysOpen(t: Tables, detections: seq<Detection>, classified: map<nat, CauseCode>,
                                              rows: seq<Row>, config: PolicyConfig, now: int, k: nat)
    requires k < |detections| && !Restless(t, detections[k], classified, config)
    requires Evaluate(detections[k], Latest(classified, detections[k].identityId), false, config, 0).recommended
    ensures HasOpen(Applied(t, detections, classified, rows, config, now), detections[k].identityId)
  {
    CondemnedIsOpen(detections, classified, rows, config, now, k);
    OpenAfterRelease(t, Recorded(detections, classified, rows, config, now), config, now, detections[k].identityId);
  }

  /** What the policy would choose again, against any open set, comes from a test it condemns. */
  lemma {:induction false} ChosenIsCondemned(detections: seq<Detection>, classified: map<nat, CauseCode>,
                                             open: set<nat>,
                                             config: PolicyConfig, now: int, r: Recommendation) returns (k: nat)
    requires r in Chosen(Recommend(detections, classified, open, config, now))
    ensures k < |detections| && detections[k].identityId == r.identityId
    ensures Evaluate(detections[k], Latest(classified, r.identityId), false, config, 0).recommended
  {
    var rs := Recommend(detections, classified, open, config, now);
    ChosenAre(rs);
    k :| 0 <= k < |detections| && rs[k] == r;
  }

  lemma {:induction false} NothingNew(t: Tables, detections: seq<Detection>, classified: map<nat, CauseCode>,
                                      rows: seq<Row>, config: PolicyConfig, now: int)
    requires forall k: nat :: k < |detections| ==> !Restless(t, detections[k], classified, config)
    ensures var after := Applied(t, detections, classified, rows, config, now);
      RecordAll(after, Chosen(Recommend(detections, classified, OpenIdsIn(after), config, now)), now) == after
  {
    var after := Applied(t, detections, classified, rows, config, now);
    var chosen := Chosen(Recommend(detections, classified, OpenIdsIn(after), config, now));
    forall r | r in chosen ensures HasOpen(after, r.identityId) {
      var k := ChosenIsCondemned(detections, classified, OpenIdsIn(after), config, now, r);
      CondemnedStaysOpen(t, detections, classified, rows, config, now, k);
    }
    RecordNothing(after, chosen, now);
  }

  lemma {:induction false} SomethingNew(t: Tables, detections: seq<Detection>, classified: map<nat, CauseCode>,
                                        rows: seq<Row>, config: PolicyConfig, now: int, k: nat)
    requires k < |detections| && Restless(t, detections[k], classified, config)
    ensures var after := Applied(t, detections, classified, rows, config, now);
      |RecordAll(after, Chosen(Recommend(detections, classified, OpenIdsIn(after), config, now)), now)| > |after|
  {
    var id := detections[k].identityId;
    var after := Applied(t, detections, classified, rows, config, now);
    var chosen := Chosen(Recommend(detections, classified, OpenIdsIn(after), config, now));
    OpenAfterRelease(t, Recorded(detections, classified, rows, config, now), config, now, id);
    assert !HasOpen(after, id);
    assert id !in OpenIdsIn(after);
    RecommendAt(detections, classified, OpenIdsIn(after), config, now, k);
    var r :| r in chosen && r.recommended && r.identityId == id;
    RecordedIsOpen(after, chosen, now, r);
    RecordAppends(after, chosen, now);
    assert RecordAll(after, chosen, now) != after;
    assert RecordAll(after, chosen, now)[..|RecordAll(after, chosen, now)|] == RecordAll(after, chosen, now);
  }

  lemma {:induction false} NotExpiredAgain(t: Tables, detections: seq<Detection>, classified: map<nat, CauseCode>,
                                           rows: seq<Row>, config: PolicyConfig, now: int)
    requires config.ttlDays >= 1
    ensures var after := Applied(t, detections, classified, rows, config, now); ExpireAll(after, now) == after
  {
    NothingOverdue(t, detections, classified, rows, config, now);
  }

  /** Repeating `--apply` at the same instant changes nothing exactly when no test is condemned and clean at once,
      whatever rows were there; otherwise every repetition adds rows. */
  lemma {:induction false} ApplyTwiceIff(t: Tables, detections: seq<Detection>, classified: map<nat, CauseCode>,
                                         rows: seq<Row>, config: PolicyConfig, now: int)
    requires config.ttlDays >= 1
    ensures var after := Applied(t, detections, classified, rows, config, now);
      Applied(t, detections, classified, after, config, now) == after
      <==> forall k: nat :: k < |detections| ==> !Restless(t, detections[k], classified, config)
  {
    var recorded := Recorded(detections, classified, rows, config, now);
    var after := Applied(t, detections, classified, rows, config, now);
    NotExpiredAgain(t, detections, classified, rows, config, now);
    if forall k: nat :: k < |detections| ==> !Restless(t, detections[k], classified, config) {
      NothingNew(t, detections, classified, rows, config, now);
      CheckedTwice(t, recorded, config, now);
    } else {
      var k: nat :| k < |detections| && Restless(t, detections[k], classified, config);
      SomethingNew(t, detections, classified, rows, config, now, k);
    }
  }

  /** In particular, an `--apply` that released nothing is a fixpoint. */
  lemma {:induction false} ReleasedNothingIsFixpoint(t: Tables, detections: seq<Detection>,
                                                     classified: map<nat, CauseCode>, rows: seq<Row>,
                                                     config: PolicyConfig, now: int)
    requires config.ttlDays >= 1
    requires Applied(t, detections, classified, rows, config, now) ==
      Recorded(detections, classified, rows, config, now)
    ensures var after := Applied(t, detections, classified, rows, config, now);
      Applied(t, detections, classified, after, config, now) == after
  {
    var recorded := Recorded(detections, classified, rows, config, now);
    forall k: nat | k < |detections| ensures !Restless(t, detections[k], classified, config) {
      if Restless(t, detections[k], classified, config) {
        CondemnedIsOpen(detections, classified, rows, config, now, k);
        OpenAfterRelease(t, recorded, config, now, detections[k].identityId);
        assert false;
      }
    }
    ApplyTwiceIff(t, detections, classified, rows, config, now);
  }
}

/** detect/history.py: executions grouped into per-commit windows. */
module History {
  import opened Store
  import opened Sorting

  datatype WindowStatus = Passed | Failed | Diverged | NoData

  datatype Window = Window(commitSha: nat, records: seq<ExecutionRecord>)

  datatype HistoryOf = HistoryOf(windows: seq<Window>, infraExcluded: nat, skipped: nat)

  // ---- one window --------------------------------------------------------

  predicate HasPass(records: seq<ExecutionRecord>) { exists r :: r in records && r.outcome.Pass? }

  predicate HasFailure(records: seq<ExecutionRecord>) { exists r :: r in records && r.outcome.IsFailure() }

  predicate RerunObserved(records: seq<ExecutionRecord>) { exists r :: r in records && r.rerunObserved }

  /** Adding up a weight over records. */
  function Weigh(records: seq<ExecutionRecord>, weight: ExecutionRecord -> nat): nat {
    if records == [] then 0
    else Weigh(records[..|records| - 1], weight) + weight(records[|records| - 1])
  }

  function CountsOne(r: ExecutionRecord): nat { 1 }

  function CountsIfObserved(r: ExecutionRecord): nat { if r.outcome.CountsAsObservation() then 1 else 0 }

  function Observations(records: seq<ExecutionRecord>): nat { Weigh(records, CountsIfObserved) }

  function StartedAt(records: seq<ExecutionRecord>): int
    requires records != []
  {
    if |records| == 1 then records[0].startedAt
    else
      var rest := StartedAt(records[1..]);
      if records[0].startedAt < rest then records[0].startedAt else rest
  }

  function Attempts(records: seq<ExecutionRecord>): set<nat> { set r | r in records :: r.attempt }

  function PassingAttempts(records: seq<ExecutionRecord>): set<nat> {
    set r | r in records && r.outcome.Pass? :: r.attempt
  }

  function FailingAttempts(records: seq<ExecutionRecord>): set<nat> {
    set r | r in records && r.outcome.IsFailure() :: r.attempt
  }

  /** What the signals may look at in a window: nothing that depends on the order of its records. */
  datatype Summary = Summary(
    commitSha: nat, startedAt: int, observations: nat, hasPass: bool, hasFailure: bool, rerun: bool,
    attempts: set<nat>, passing: set<nat>, failing: set<nat>)
  {
    predicate IsDiverged() { (hasPass && hasFailure) || rerun }

    function Status(): WindowStatus {
      if IsDiverged() then Diverged
      else if observations == 0 then NoData
      else if hasFailure then Failed
      else Passed
    }

    predicate DivergedAcrossAttempts() {
      IsDiverged() && |attempts| >= 2 && passing != {} && failing != {} &&
        (passing - failing != {} || failing - passing != {})
    }
  }

  function Summarize(w: Window): Summary
    requires w.records != []
  {
    Summary(w.commitSha, StartedAt(w.records), Observations(w.records), HasPass(w.records), HasFailure(w.records),
            RerunObserved(w.records), Attempts(w.records), PassingAttempts(w.records), FailingAttempts(w.records))
  }

  // ---- the window sequence -----------------------------------------------

  /** Only harness-level errors are candidates, whatever the patterns match. */
  predicate IsInfraFailure(r: ExecutionRecord, platform: ExecutionRecord -> bool) {
    r.outcome.Error? && platform(r)
  }

  function Kept(records: seq<ExecutionRecord>, platform: ExecutionRecord -> bool): seq<ExecutionRecord> {
    if records == [] then []
    else
      var rest, last := Kept(records[..|records| - 1], platform), records[|records| - 1];
      if IsInfraFailure(last, platform) then rest else rest + [last]
  }

  function InfraCount(records: seq<ExecutionRecord>, platform: ExecutionRecord -> bool): nat {
    |records| - KeptLength(records, platform)
  }

  function KeptLength(records: seq<ExecutionRecord>, platform: ExecutionRecord -> bool): (n: nat)
    ensures n <= |records|
  {
    if records == [] then 0
    else
      var n := |records| - 1;
      KeptLength(records[..n], platform) + if IsInfraFailure(records[n], platform) then 0 else 1
  }

  function SkipCount(kept: seq<ExecutionRecord>): nat {
    if kept == [] then 0
    else SkipCount(kept[..|kept| - 1]) + if kept[|kept| - 1].outcome.Skip? then 1 else 0
  }

  function OfSha(kept: seq<ExecutionRecord>, sha: nat): seq<ExecutionRecord> {
    if kept == [] then []
    else
      var rest, last := OfSha(kept[..|kept| - 1], sha), kept[|kept| - 1];
      if last.commitSha == sha then rest + [last] else rest
  }

  function Shas(kept: seq<ExecutionRecord>): set<nat> { set r | r in kept :: r.commitSha }

  /** Chronological order of summaries; shas break ties. */
  predicate Before(a: Summary, b: Summary) {
    a.startedAt < b.startedAt || (a.startedAt == b.startedAt && a.commitSha <= b.commitSha)
  }

  predicate WindowBefore(a: Window, b: Window) {
    a.records != [] && b.records != [] && Before(Summarize(a), Summarize(b))
  }

  function Summaries(windows: seq<Window>): (s: seq<Summary>)
    requires forall w :: w in windows ==> w.records != []
    ensures |s| == |windows|
    ensures forall k :: 0 <= k < |windows| ==> s[k] == Summarize(windows[k])
  {
    seq(|windows|, k requires 0 <= k < |windows| => Summarize(windows[k]))
  }

  ghost predicate InOrder(windows: seq<Window>) {
    forall i, j :: 0 <= i < j < |windows| ==> WindowBefore(windows[i], windows[j])
  }

  /** One window for each commit of the kept records, holding exactly that commit's records in the
      order they came, oldest window first. */
  ghost predicate IsHistory(h: HistoryOf, records: seq<ExecutionRecord>, platform: ExecutionRecord -> bool) {
    var kept := Kept(records, platform);
    && InOrder(h.windows)
    && Windows(h.windows, kept, Shas(kept))
    && h.infraExcluded == InfraCount(records, platform)
    && h.skipped == SkipCount(kept)
  }

  ghost predicate Windows(windows: seq<Window>, kept: seq<ExecutionRecord>, shas: set<nat>) {
    && (forall w :: w in windows ==> w.records == OfSha(kept, w.commitSha) && w.records != [] && w.commitSha in shas)
    && (forall sha :: sha in shas ==> Window(sha, OfSha(kept, sha)) in windows)
    && NoRepeats(windows)
  }

  // ---- grouping ----------------------------------------------------------

  /** The `grouped` dictionary: keys in insertion order, and each key's records. */
  ghost predicate Grouped(order: seq<nat>, grouped: map<nat, seq<ExecutionRecord>>, kept: seq<ExecutionRecord>) {
    && NoRepeats(order)
    && (forall sha :: sha in order <==> sha in Shas(kept))
    && (forall sha :: sha in grouped <==> sha in order)
    && (forall sha :: sha in grouped ==> grouped[sha] == OfSha(kept, sha))
  }

  lemma GroupStep(order: seq<nat>, grouped: map<nat, seq<ExecutionRecord>>, kept: seq<ExecutionRecord>,
                  r: ExecutionRecord, order': seq<nat>, grouped': map<nat, seq<ExecutionRecord>>)
    requires Grouped(order, grouped, kept)
    requires order' == if r.commitSha in grouped then order else order + [r.commitSha]
    requires grouped' == grouped[r.commitSha := (if r.commitSha in grouped then grouped[r.commitSha] else []) + [r]]
    ensures Grouped(order', grouped', kept + [r])
  {
    assert (kept + [r])[..|kept + [r]| - 1] == kept;
    assert Shas(kept + [r]) == Shas(kept) + {r.commitSha};
    if r.commitSha !in grouped { NoneOfSha(kept, r.commitSha); }
    forall sha | sha in grouped' ensures grouped'[sha] == OfSha(kept + [r], sha) {
    }
  }

  lemma {:induction false} NoneOfSha(kept: seq<ExecutionRecord>, sha: nat)
    requires sha !in Shas(kept)
    ensures OfSha(kept, sha) == []
  {
    if kept != [] {
      assert kept[|kept| - 1] in kept && forall r :: r in kept[..|kept| - 1] ==> r in kept;
      NoneOfSha(kept[..|kept| - 1], sha);
    }
  }

  lemma {:induction false} SomeOfSha(kept: seq<ExecutionRecord>, sha: nat)
    ensures forall r :: r in OfSha(kept, sha) <==> r in kept && r.commitSha == sha
  {
    if kept != [] {
      var rest, last := kept[..|kept| - 1], kept[|kept| - 1];
      SomeOfSha(rest, sha);
      assert kept == rest + [last];
    }
  }

  lemma {:induction false} KeptLengthIs(records: seq<ExecutionRecord>, platform: ExecutionRecord -> bool)
    ensures |Kept(records, platform)| == KeptLength(records, platform)
  {
    if records != [] { KeptLengthIs(records[..|records| - 1], platform); }
  }

  method AddRecord(order: seq<nat>, grouped: map<nat, seq<ExecutionRecord>>, r: ExecutionRecord,
                   ghost kept: seq<ExecutionRecord>)
    returns (order': seq<nat>, grouped': map<nat, seq<ExecutionRecord>>)
    requires Grouped(order, grouped, kept)
    ensures Grouped(order', grouped', kept + [r])
  {
    order', grouped' := order, grouped;
    if r.commitSha !in grouped {
      order' := order' + [r.commitSha];
      grouped' := grouped'[r.commitSha := []];
    }
    grouped' := grouped'[r.commitSha := grouped'[r.commitSha] + [r]];
    GroupStep(order, grouped, kept, r, order', grouped');
  }

  lemma KeptStep(records: seq<ExecutionRecord>, k: nat, platform: ExecutionRecord -> bool)
    requires k < |records|
    ensures Kept(records[..k + 1], platform) ==
      if IsInfraFailure(records[k], platform) then Kept(records[..k], platform)
      else Kept(records[..k], platform) + [records[k]]
    ensures InfraCount(records[..k + 1], platform) ==
      InfraCount(records[..k], platform) + if IsInfraFailure(records[k], platform) then 1 else 0
    ensures SkipCount(Kept(records[..k + 1], platform)) ==
      SkipCount(Kept(records[..k], platform)) + if records[k].outcome.Skip? then 1 else 0
  {
    assert records[..k + 1][..k] == records[..k];
    var kept := Kept(records[..k], platform);
    assert (kept + [records[k]])[..|kept + [records[k]]| - 1] == kept;
  }

  /** What the grouping loop has built from `records`. */
  ghost predicate GroupedSoFar(records: seq<ExecutionRecord>, platform: ExecutionRecord -> bool, order: seq<nat>,
                               grouped: map<nat, seq<ExecutionRecord>>, infraExcluded: nat, skipped: nat) {
    && Grouped(order, grouped, Kept(records, platform))
    && infraExcluded == InfraCount(records, platform)
    && skipped == SkipCount(Kept(records, platform))
  }

  method GroupOne(records: seq<ExecutionRecord>, k: nat, platform: ExecutionRecord -> bool, order: seq<nat>,
                  grouped: map<nat, seq<ExecutionRecord>>, infraExcluded: nat, skipped: nat)
    returns (order': seq<nat>, grouped': map<nat, seq<ExecutionRecord>>, infraExcluded': nat, skipped': nat)
    requires k < |records| && GroupedSoFar(records[..k], platform, order, grouped, infraExcluded, skipped)
    ensures GroupedSoFar(records[..k + 1], platform, order', grouped', infraExcluded', skipped')
  {
    order', grouped', infraExcluded', skipped' := order, grouped, infraExcluded, skipped;
    KeptStep(records, k, platform);
    if IsInfraFailure(records[k], platform) {
      infraExcluded' := infraExcluded + 1;
      return;
    }
    if records[k].outcome.Skip? {
      skipped' := skipped + 1;
    }
    order', grouped' := AddRecord(order, grouped, records[k], Kept(records[..k], platform));
  }

  method GroupRecords(records: seq<ExecutionRecord>, platform: ExecutionRecord -> bool)
    returns (order: seq<nat>, grouped: map<nat, seq<ExecutionRecord>>, infraExcluded: nat, skipped: nat)
    ensures GroupedSoFar(records, platform, order, grouped, infraExcluded, skipped)
  {
    order, grouped, infraExcluded, skipped := [], map[], 0, 0;
    for k := 0 to |records|
      invariant GroupedSoFar(records[..k], platform, order, grouped, infraExcluded, skipped)
    {
      order, grouped, infraExcluded, skipped := GroupOne(records, k, platform, order, grouped, infraExcluded, skipped);
    }
    assert records[..|records|] == records;
  }

  function WindowsOf(order: seq<nat>, grouped: map<nat, seq<ExecutionRecord>>): (ws: seq<Window>)
    requires forall sha :: sha in order ==> sha in grouped
    ensures |ws| == |order|
  {
    seq(|order|, k requires 0 <= k < |order| => Window(order[k], grouped[order[k]]))
  }

  lemma WindowsOfAre(order: seq<nat>, grouped: map<nat, seq<ExecutionRecord>>, kept: seq<ExecutionRecord>)
    requires Grouped(order, grouped, kept)
    ensures Windows(WindowsOf(order, grouped), kept, Shas(kept))
  {
    var ws := WindowsOf(order, grouped);
    forall w | w in ws ensures w.records == OfSha(kept, w.commitSha) && w.records != [] && w.commitSha in Shas(kept) {
      var k :| 0 <= k < |ws| && ws[k] == w;
      assert order[k] in order;
      SomeOfSha(kept, w.commitSha);
      var r :| r in kept && r.commitSha == w.commitSha;
      assert r in w.records;
    }
    forall sha | sha in Shas(kept) ensures Window(sha, OfSha(kept, sha)) in ws {
      var k :| 0 <= k < |order| && order[k] == sha;
      assert ws[k] == Window(sha, OfSha(kept, sha));
    }
  }

  lemma WindowsReorder(a: seq<Window>, b: seq<Window>, kept: seq<ExecutionRecord>, shas: set<nat>)
    requires Windows(a, kept, shas) && multiset(a) == multiset(b)
    ensures Windows(b, kept, shas)
  {
    SameElements(a, b);
    ReorderWithoutRepeats(a, b);
  }

  lemma SortWindows(ws: seq<Window>, kept: seq<ExecutionRecord>)
    requires Windows(ws, kept, Shas(kept))
    ensures InOrder(SortBy(ws, WindowBefore)) && Windows(SortBy(ws, WindowBefore), kept, Shas(kept))
  {
    SortElements(ws, WindowBefore);
    WindowsReorder(ws, SortBy(ws, WindowBefore), kept, Shas(kept));
    assert forall w :: w in multiset(ws) ==> w in ws;
    assert Ranks(multiset(ws), WindowBefore);
    SortBySorts(ws, WindowBefore);
    var sorted := SortBy(ws, WindowBefore);
    forall i, j | 0 <= i < j < |sorted| ensures WindowBefore(sorted[i], sorted[j]) {
      SortedIndex(sorted, WindowBefore, i, j);
    }
  }

  method BuildHistory(records: seq<ExecutionRecord>, platform: ExecutionRecord -> bool) returns (h: HistoryOf)
    ensures IsHistory(h, records, platform)
  {
    var order, grouped, infraExcluded, skipped := GroupRecords(records, platform);
    WindowsOfAre(order, grouped, Kept(records, platform));
    SortWindows(WindowsOf(order, grouped), Kept(records, platform));
    h := HistoryOf(SortBy(WindowsOf(order, grouped), WindowBefore), infraExcluded, skipped);
  }
}

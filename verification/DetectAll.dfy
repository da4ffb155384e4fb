/** detect/detector.py: detection over the whole store, one report for each logical test. */
module DetectAll {
  import opened Models
  import opened Tables
  import opened AliasGraph
  import opened Store
  import opened History
  import opened HistoryLaws
  import opened Detector
  import Picking
  import Sorting

  function Since(records: seq<ExecutionRecord>, since: Option<int>): seq<ExecutionRecord> {
    if records == [] then []
    else
      var rest := Since(records[1..], since);
      if since.None? || records[0].startedAt >= since.value then [records[0]] + rest else rest
  }

  predicate RecentEnough(r: ExecutionRecord, since: Option<int>) {
    match since case None => true case Some(cutoff) => cutoff <= r.startedAt
  }

  /** The records started at or after the cutoff, all of them and in their order. */
  lemma {:induction false} SinceIs(records: seq<ExecutionRecord>, since: Option<int>)
    ensures Picking.Picked(records, Since(records, since), (r: ExecutionRecord) => RecentEnough(r, since))
  {
    var keep := (r: ExecutionRecord) => RecentEnough(r, since);
    if records == [] {
      Picking.PickedNone(keep);
    } else {
      SinceIs(records[1..], since);
      Picking.PickedCons(records[0], records[1..], Since(records[1..], since), keep);
      assert [records[0]] + records[1..] == records;
    }
  }

  /** The records detection looks at for the logical test of `id`. */
  ghost function Evidence(t: Tables, id: nat, config: DetectConfig, since: Option<int>): seq<ExecutionRecord> {
    Since(NewestOf(t, Component(t.aliases, id), Some(config.windowExecutions)), since)
  }

  /** `d` reports the logical test of `id`, under its most recently created identity. */
  ghost predicate Reports(t: Tables, d: Detection, id: nat, platform: ExecutionRecord -> bool,
                          context: HistoryOf -> BranchContext, config: DetectConfig, since: Option<int>) {
    exists h, uncertain, ids ::
      && IsGroup(t.aliases, id, ids, uncertain)
      && ids != [] && d.identityId == ids[|ids| - 1] < |t.identities|
      && IsHistory(h, Evidence(t, id, config, since), platform)
      && Nonempty(h.windows)
      && d == DetectForHistory(d.identityId, h, context(h), uncertain, config)
  }

  /** Nothing to report for a test with no identity row or no records in the window. */
  ghost predicate Reportable(t: Tables, id: nat, config: DetectConfig, since: Option<int>) {
    && (forall x :: x in Component(t.aliases, id) ==> x < |t.identities|)
    && Evidence(t, id, config, since) != []
  }

  function DisplayName(i: TestIdentity): string {
    var base := if i.suitePath != "" then i.suitePath + "::" + i.testName else i.testName;
    if i.parameters != "" then base + "[" + i.parameters + "]" else base
  }

  predicate TextAtMost(a: string, b: string) {
    a == "" || (b != "" && (a[0] < b[0] || (a[0] == b[0] && TextAtMost(a[1..], b[1..]))))
  }

  function NameOf(identities: seq<TestIdentity>, id: nat): string {
    if id < |identities| then DisplayName(identities[id]) else ""
  }

  /** Highest flake rate first, then by name. */
  predicate WorseFirst(identities: seq<TestIdentity>, a: Detection, b: Detection) {
    a.flakeRate > b.flakeRate
    || (a.flakeRate == b.flakeRate && TextAtMost(NameOf(identities, a.identityId), NameOf(identities, b.identityId)))
  }

  lemma {:induction false} TextTotal(a: string, b: string)
    ensures TextAtMost(a, b) || TextAtMost(b, a)
  {
    if a != "" && b != "" { TextTotal(a[1..], b[1..]); }
  }

  lemma {:induction false} TextTransitive(a: string, b: string, c: string)
    requires TextAtMost(a, b) && TextAtMost(b, c)
    ensures TextAtMost(a, c)
  {
    if a != "" && b != "" && c != "" && a[0] == b[0] == c[0] { TextTransitive(a[1..], b[1..], c[1..]); }
  }

  ghost predicate InReportOrder(identities: seq<TestIdentity>, detections: seq<Detection>) {
    forall i, j :: 0 <= i < j < |detections| ==> WorseFirst(identities, detections[i], detections[j])
  }

  /** The texts agree up to where one ends or comes first there. */
  ghost predicate SplitsBefore(a: string, b: string, k: nat) {
    && k <= |a| && k <= |b| && a[..k] == b[..k]
    && (k == |a| || (k < |b| && a[k] < b[k]))
  }

  /** Names compare character by character, a name before its extensions. */
  lemma {:induction false} TextAtMostIff(a: string, b: string)
    ensures TextAtMost(a, b) <==> exists k: nat :: SplitsBefore(a, b, k)
  {
    if a == "" {
      assert SplitsBefore(a, b, 0);
    } else if b != "" && a[0] == b[0] {
      TextAtMostIff(a[1..], b[1..]);
      if k: nat :| SplitsBefore(a[1..], b[1..], k) {
        assert a[..k + 1] == [a[0]] + a[1..][..k] && b[..k + 1] == [b[0]] + b[1..][..k];
        assert SplitsBefore(a, b, k + 1);
      }
      if k: nat :| SplitsBefore(a, b, k) {
        assert k > 0;
        assert a[1..][..k - 1] == a[..k][1..] && b[1..][..k - 1] == b[..k][1..];
        assert SplitsBefore(a[1..], b[1..], k - 1);
      }
    } else if b != "" && a[0] < b[0] {
      assert SplitsBefore(a, b, 0);
    } else {
      assert forall k: nat :: SplitsBefore(a, b, k) && k > 0 ==> a[..k][0] == b[..k][0];
    }
  }

  /** A test is named by its suite path and name, with its parameters in brackets if it has any. */
  predicate NamedAs(i: TestIdentity, name: string) {
    && (i.suitePath == "" && i.parameters == "" ==> name == i.testName)
    && (i.suitePath == "" && i.parameters != "" ==> name == i.testName + "[" + i.parameters + "]")
    && (i.suitePath != "" && i.parameters == "" ==> name == i.suitePath + "::" + i.testName)
    && (i.suitePath != "" && i.parameters != "" ==>
      name == i.suitePath + "::" + i.testName + "[" + i.parameters + "]")
  }

  /** A report lists higher rates first, and equal ones by name. */
  lemma {:induction false} ReportOrder(identities: seq<TestIdentity>, detections: seq<Detection>, i: nat, j: nat)
    requires InReportOrder(identities, detections) && i < j < |detections|
    requires detections[i].identityId < |identities| && detections[j].identityId < |identities|
    ensures detections[i].flakeRate >= detections[j].flakeRate
    ensures detections[i].flakeRate == detections[j].flakeRate ==>
      exists a, b, k: nat ::
        && NamedAs(identities[detections[i].identityId], a) && NamedAs(identities[detections[j].identityId], b)
        && SplitsBefore(a, b, k)
  {
    assert WorseFirst(identities, detections[i], detections[j]);
    var a, b := NameOf(identities, detections[i].identityId), NameOf(identities, detections[j].identityId);
    assert NamedAs(identities[detections[i].identityId], a) && NamedAs(identities[detections[j].identityId], b);
    TextAtMostIff(a, b);
  }

  lemma WorseFirstTransitive(identities: seq<TestIdentity>, a: Detection, b: Detection, c: Detection)
    requires WorseFirst(identities, a, b) && WorseFirst(identities, b, c)
    ensures WorseFirst(identities, a, c)
  {
    if a.flakeRate == c.flakeRate {
      TextTransitive(NameOf(identities, a.identityId), NameOf(identities, b.identityId),
        NameOf(identities, c.identityId));
    }
  }

  lemma SortsWorseFirst(identities: seq<TestIdentity>, found: seq<Detection>, le: (Detection, Detection) -> bool)
    requires forall a, b :: le(a, b) == WorseFirst(identities, a, b)
    ensures InReportOrder(identities, Sorting.SortBy(found, le))
  {
    forall a, b ensures le(a, b) || le(b, a) {
      TextTotal(NameOf(identities, a.identityId), NameOf(identities, b.identityId));
    }
    forall a, b, c | le(a, b) && le(b, c) ensures le(a, c) { WorseFirstTransitive(identities, a, b, c); }
    Sorting.SortBySorts(found, le);
    forall i, j | 0 <= i < j < |found| && j < |Sorting.SortBy(found, le)|
      ensures WorseFirst(identities, Sorting.SortBy(found, le)[i], Sorting.SortBy(found, le)[j])
    {
      Sorting.SortedIndex(Sorting.SortBy(found, le), le, i, j);
    }
    Sorting.SortElements(found, le);
    Sorting.SameElements(Sorting.SortBy(found, le), found);
  }

  method DetectOne(store: RunStore, id: nat, ids: seq<nat>, uncertain: bool, platform: ExecutionRecord -> bool,
                   context: HistoryOf -> BranchContext, config: DetectConfig, since: Option<int>)
    returns (found: Option<Detection>)
    requires IsGroup(store.aliases, id, ids, uncertain)
    ensures found.Some? ==> Reports(store.View(), found.value, id, platform, context, config, since)
    ensures found.Some? ==> Connected(store.aliases, id, found.value.identityId)
    ensures found.None? ==> !Reportable(store.View(), id, config, since)
  {
    ConnectedSelf(store.aliases, id);
    ComponentIsConnected(store.aliases, id);
    assert id in ids;
    var primary := ids[|ids| - 1];
    assert primary in ids;
    if primary >= |store.identities| {
      return None;
    }
    var records := store.ExecutionsForGroup(id, Some(config.windowExecutions));
    records := Since(records, since);
    if records == [] {
      return None;
    }
    var h := BuildHistory(records, platform);
    assert Nonempty(h.windows);
    found := Some(DetectForHistory(primary, h, context(h), uncertain, config));
    assert Reports(store.View(), found.value, id, platform, context, config, since);
  }

  /** Reported identities are whole groups. */
  ghost predicate WholeGroups(aliases: seq<AliasRow>, reported: set<nat>) {
    forall x, y :: x in reported && Connected(aliases, x, y) ==> y in reported
  }

  lemma AddGroup(aliases: seq<AliasRow>, reported: set<nat>, id: nat, ids: seq<nat>, uncertain: bool)
    requires WholeGroups(aliases, reported) && IsGroup(aliases, id, ids, uncertain)
    ensures WholeGroups(aliases, reported + Members(ids))
    ensures id in ids
  {
    ConnectedSelf(aliases, id);
    forall x, y | x in ids && Connected(aliases, x, y) ensures y in ids {
      ConnectedTransitive(aliases, id, x, y);
    }
  }

  /** No two detections are about the same logical test. */
  ghost predicate OnePerTest(aliases: seq<AliasRow>, detections: seq<Detection>) {
    forall i, j :: 0 <= i < j < |detections| ==> !Connected(aliases, detections[i].identityId, detections[j].identityId)
  }

  lemma ReportableGroup(t: Tables, a: nat, b: nat, config: DetectConfig, since: Option<int>)
    requires Connected(t.aliases, a, b)
    ensures Component(t.aliases, a) == Component(t.aliases, b)
    ensures Reportable(t, a, config, since) <==> Reportable(t, b, config, since)
  {
    ConnectedSelf(t.aliases, b);
    GroupsPartition(t.aliases, a, b, b);
    ComponentIsConnected(t.aliases, a);
    ComponentIsConnected(t.aliases, b);
  }

  ghost predicate HasReport(aliases: seq<AliasRow>, detections: seq<Detection>, id: nat) {
    exists d :: d in detections && Connected(aliases, id, d.identityId)
  }

  /** Every reportable test among `reported` has a report. */
  ghost predicate Covered(t: Tables, detections: seq<Detection>, reported: set<nat>, config: DetectConfig,
                          since: Option<int>) {
    forall x :: x in reported && Reportable(t, x, config, since) ==> HasReport(t.aliases, detections, x)
  }

  ghost predicate ReportOf(t: Tables, d: Detection, candidates: seq<nat>, platform: ExecutionRecord -> bool,
                           context: HistoryOf -> BranchContext, config: DetectConfig, since: Option<int>) {
    exists id :: id in candidates && Reports(t, d, id, platform, context, config, since)
  }

  /** Every detection reports some candidate. */
  ghost predicate AllReports(t: Tables, detections: seq<Detection>, candidates: seq<nat>,
                             platform: ExecutionRecord -> bool, context: HistoryOf -> BranchContext,
                             config: DetectConfig, since: Option<int>) {
    forall d :: d in detections ==> ReportOf(t, d, candidates, platform, context, config, since)
  }

  /** Where the scan over candidates stands. */
  ghost predicate Scanned(aliases: seq<AliasRow>, reported: set<nat>, detections: seq<Detection>) {
    && WholeGroups(aliases, reported)
    && OnePerTest(aliases, detections)
    && forall d :: d in detections ==> d.identityId in reported
  }

  lemma ScannedStep(aliases: seq<AliasRow>, reported: set<nat>, detections: seq<Detection>, id: nat, ids: seq<nat>,
                    uncertain: bool, found: Option<Detection>)
    requires Scanned(aliases, reported, detections) && id !in reported
    requires IsGroup(aliases, id, ids, uncertain)
    requires found.Some? ==> Connected(aliases, id, found.value.identityId)
    ensures Scanned(aliases, reported + Members(ids), detections + OptionToSeq(found))
  {
    AddGroup(aliases, reported, id, ids, uncertain);
    var all := detections + OptionToSeq(found);
    if found.Some? {
      ConnectedSymmetric(aliases, id, found.value.identityId);
      forall i | 0 <= i < |detections| ensures !Connected(aliases, detections[i].identityId, found.value.identityId) {
        assert detections[i] in detections;
        if Connected(aliases, detections[i].identityId, found.value.identityId) {
          ConnectedTransitive(aliases, detections[i].identityId, found.value.identityId, id);
        }
      }
    }
  }

  lemma CoveredStep(t: Tables, reported: set<nat>, detections: seq<Detection>, id: nat, ids: seq<nat>, uncertain: bool,
                    found: Option<Detection>, config: DetectConfig, since: Option<int>)
    requires Covered(t, detections, reported, config, since) && IsGroup(t.aliases, id, ids, uncertain)
    requires found.Some? ==> Connected(t.aliases, id, found.value.identityId)
    requires found.None? ==> !Reportable(t, id, config, since)
    ensures Covered(t, detections + OptionToSeq(found), reported + Members(ids), config, since)
  {
    var all := detections + OptionToSeq(found);
    forall x | x in reported + Members(ids) && Reportable(t, x, config, since) ensures HasReport(t.aliases, all, x) {
      if x in ids {
        ReportableGroup(t, id, x, config, since);
        ConnectedSymmetric(t.aliases, id, x);
        ConnectedTransitive(t.aliases, x, id, found.value.identityId);
        assert found.value in all;
      } else {
        var d :| d in detections && Connected(t.aliases, x, d.identityId);
        assert d in all;
      }
    }
  }

  lemma AllReportsStep(t: Tables, detections: seq<Detection>, candidates: seq<nat>, k: nat, found: Option<Detection>,
                       platform: ExecutionRecord -> bool, context: HistoryOf -> BranchContext, config: DetectConfig,
                       since: Option<int>)
    requires k < |candidates| && AllReports(t, detections, candidates[..k], platform, context, config, since)
    requires found.Some? ==> Reports(t, found.value, candidates[k], platform, context, config, since)
    ensures AllReports(t, detections + OptionToSeq(found), candidates[..k + 1], platform, context, config, since)
  {
    assert candidates[..k + 1] == candidates[..k] + [candidates[k]];
    forall d | d in detections + OptionToSeq(found)
      ensures ReportOf(t, d, candidates[..k + 1], platform, context, config, since)
    {
      if d in detections {
        var id :| id in candidates[..k] && Reports(t, d, id, platform, context, config, since);
        assert id in candidates[..k + 1];
      } else {
        assert candidates[k] in candidates[..k + 1];
      }
    }
  }

  method Scan(store: RunStore, candidates: seq<nat>, platform: ExecutionRecord -> bool,
              context: HistoryOf -> BranchContext, config: DetectConfig, since: Option<int>)
    returns (detections: seq<Detection>)
    ensures OnePerTest(store.aliases, detections)
    ensures AllReports(store.View(), detections, candidates, platform, context, config, since)
    ensures Covered(store.View(), detections, Members(candidates), config, since)
  {
    detections := [];
    var reported: set<nat> := {};
    for k := 0 to |candidates|
      invariant Scanned(store.aliases, reported, detections)
      invariant AllReports(store.View(), detections, candidates[..k], platform, context, config, since)
      invariant Covered(store.View(), detections, reported, config, since)
      invariant forall id :: id in candidates[..k] ==> id in reported
    {
      var id := candidates[k];
      assert candidates[..k + 1] == candidates[..k] + [id];
      AllReportsStep(store.View(), detections, candidates, k, None, platform, context, config, since);
      assert detections + [] == detections;
      if id in reported {
        continue;
      }
      var ids, uncertain := store.IdentityGroup(id);
      AddGroup(store.aliases, reported, id, ids, uncertain);
      var found := DetectOne(store, id, ids, uncertain, platform, context, config, since);
      ScannedStep(store.aliases, reported, detections, id, ids, uncertain, found);
      CoveredStep(store.View(), reported, detections, id, ids, uncertain, found, config, since);
      AllReportsStep(store.View(), detections, candidates, k, found, platform, context, config, since);
      reported := reported + Members(ids);
      detections := detections + OptionToSeq(found);
    }
    assert candidates[..|candidates|] == candidates;
  }

  lemma SortKeepsOne(aliases: seq<AliasRow>, a: seq<Detection>, b: seq<Detection>)
    requires OnePerTest(aliases, a) && multiset(a) == multiset(b)
    ensures OnePerTest(aliases, b)
  {
    Sorting.SameElements(a, b);
    forall i, j | 0 <= i < j < |a| ensures a[i] != a[j] {
      ConnectedSelf(aliases, a[i].identityId);
    }
    Sorting.ReorderWithoutRepeats(a, b);
    forall i, j | 0 <= i < j < |b| ensures !Connected(aliases, b[i].identityId, b[j].identityId) {
      assert b[i] in a && b[j] in a;
      var k :| 0 <= k < |a| && a[k] == b[i];
      var l :| 0 <= l < |a| && a[l] == b[j];
      assert k != l;
      if l < k && Connected(aliases, b[i].identityId, b[j].identityId) {
        ConnectedSymmetric(aliases, b[i].identityId, b[j].identityId);
      }
    }
  }

  /** One detection for each logical test that has something to report, and at most one, the flakiest first. */
  method Detect(store: RunStore, candidates: seq<nat>, platform: ExecutionRecord -> bool,
                context: HistoryOf -> BranchContext, config: DetectConfig, since: Option<int>)
    returns (detections: seq<Detection>)
    ensures OnePerTest(store.aliases, detections)
    ensures AllReports(store.View(), detections, candidates, platform, context, config, since)
    ensures Covered(store.View(), detections, Members(candidates), config, since)
    ensures InReportOrder(store.identities, detections)
  {
    var found := Scan(store, candidates, platform, context, config, since);
    var identities := store.identities;
    var le := (a, b) => WorseFirst(identities, a, b);
    detections := Sorting.SortBy(found, le);
    SortsWorseFirst(identities, found, le);
    Sorting.SortElements(found, le);
    Sorting.SameElements(detections, found);
    SortKeepsOne(store.aliases, found, detections);
    forall x | x in Members(candidates) && Reportable(store.View(), x, config, since)
      ensures HasReport(store.aliases, detections, x)
    {
      var d :| d in found && Connected(store.aliases, x, d.identityId);
      assert d in detections;
    }
  }
}

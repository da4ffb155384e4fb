/** One quarantine for each logical test: what `policy --apply` makes of a table whose rows name a test by the
    identity it had when it was quarantined, while detection names it by its latest. */
module LogicalTests {
  import opened Models
  import opened Tables
  import opened AliasGraph
  import opened Store
  import opened History
  import opened Detector
  import opened Quarantine
  import opened Records
  import opened RecordLaws
  import opened Policy
  import opened PolicyLaws
  import DetectAll
  import ApplyAgain

  ghost predicate OpenFor(aliases: seq<AliasRow>, row: Row, id: nat) {
    row.state.IsOpen() && Connected(aliases, id, row.identityId)
  }

  /** Two open quarantines for the logical test of `id`. */
  ghost predicate Doubled(aliases: seq<AliasRow>, rows: seq<Row>, id: nat) {
    exists i, j :: 0 <= i < j < |rows| && OpenFor(aliases, rows[i], id) && OpenFor(aliases, rows[j], id)
  }

  ghost predicate OpenElsewhere(aliases: seq<AliasRow>, rows: seq<Row>, id: nat) {
    exists i :: 0 <= i < |rows| && OpenFor(aliases, rows[i], id) && rows[i].identityId != id
  }

  predicate Wanted(d: Detection, classified: map<nat, CauseCode>, config: PolicyConfig) {
    Evaluate(d, Latest(classified, d.identityId), false, config, 0).recommended
  }

  /** The policy condemns the test, and it has an open quarantine under another of its identities. */
  ghost predicate Misnamed(aliases: seq<AliasRow>, rows: seq<Row>, d: Detection, classified: map<nat, CauseCode>,
                           config: PolicyConfig, id: nat) {
    Connected(aliases, id, d.identityId) && Wanted(d, classified, config) && OpenElsewhere(aliases, rows, d.identityId)
  }

  ghost predicate AnyMisnamed(aliases: seq<AliasRow>, rows: seq<Row>, detections: seq<Detection>,
                              classified: map<nat, CauseCode>, config: PolicyConfig, id: nat) {
    exists k :: 0 <= k < |detections| && Misnamed(aliases, rows, detections[k], classified, config, id)
  }

  // ---- what recording adds -----------------------------------------------

  /** A row that was added is the only open one of its identity so far. */
  lemma {:induction false} AddedIsFresh(rows: seq<Row>, rs: seq<Recommendation>, now: int, i: nat, j: nat)
    requires i < j < |RecordAll(rows, rs, now)| && |rows| <= j
    requires RecordAll(rows, rs, now)[i].state.IsOpen()
    ensures RecordAll(rows, rs, now)[i].identityId != RecordAll(rows, rs, now)[j].identityId
    decreases |rs|
  {
    if rs != [] {
      var earlier := RecordAll(rows, rs[..|rs| - 1], now);
      if j < |earlier| { AddedIsFresh(rows, rs[..|rs| - 1], now, i, j); }
    }
  }

  /** Each added row comes from a detection the policy condemns. */
  lemma {:induction false} AddedIsWanted(detections: seq<Detection>, classified: map<nat, CauseCode>, rows: seq<Row>,
                                         config: PolicyConfig, now: int, j: nat) returns (k: nat)
    requires |rows| <= j < |Recorded(detections, classified, rows, config, now)|
    ensures k < |detections| && Wanted(detections[k], classified, config)
    ensures Recorded(detections, classified, rows, config, now)[j].identityId == detections[k].identityId
  {
    var kept := ExpireAll(rows, now);
    var chosen := Chosen(Recommend(detections, classified, OpenIdsIn(kept), config, now));
    RecordAppends(kept, chosen, now);
    var row := Recorded(detections, classified, rows, config, now)[j];
    assert MadeFrom(row, chosen, now);
    var r :| r in chosen && r.recommended && row == MakeRow(r, Recommended, now);
    k := ChosenIsCondemned(detections, classified, OpenIdsIn(kept), config, now, r);
  }

  lemma {:induction false} OldRowsStay(detections: seq<Detection>, classified: map<nat, CauseCode>, rows: seq<Row>,
                                       config: PolicyConfig, now: int, i: nat)
    requires i < |rows|
    ensures |rows| <= |Recorded(detections, classified, rows, config, now)|
    ensures Recorded(detections, classified, rows, config, now)[i] == ExpireAll(rows, now)[i]
  {
    var kept := ExpireAll(rows, now);
    RecordAppends(kept, Chosen(Recommend(detections, classified, OpenIdsIn(kept), config, now)), now);
  }

  lemma {:induction false} SameTest(aliases: seq<AliasRow>, id: nat, a: nat, b: nat)
    requires Connected(aliases, id, a) && Connected(aliases, id, b)
    ensures Connected(aliases, a, b)
  {
    ConnectedSymmetric(aliases, id, a);
    ConnectedTransitive(aliases, a, id, b);
  }

  /** A second open row was there before, or was added beside one under another identity. */
  lemma {:induction false} DoubledHow(t: Tables, detections: seq<Detection>, classified: map<nat, CauseCode>,
                                      rows: seq<Row>, config: PolicyConfig, now: int, id: nat)
    requires DetectAll.OnePerTest(t.aliases, detections)
    requires Doubled(t.aliases, Recorded(detections, classified, rows, config, now), id)
    ensures
      var kept := ExpireAll(rows, now);
      Doubled(t.aliases, kept, id) || AnyMisnamed(t.aliases, kept, detections, classified, config, id)
  {
    var kept, recorded := ExpireAll(rows, now), Recorded(detections, classified, rows, config, now);
    var i, j :| 0 <= i < j < |recorded| && OpenFor(t.aliases, recorded[i], id) && OpenFor(t.aliases, recorded[j], id);
    if j < |rows| {
      OldRowsStay(detections, classified, rows, config, now, i);
      OldRowsStay(detections, classified, rows, config, now, j);
      assert OpenFor(t.aliases, kept[i], id) && OpenFor(t.aliases, kept[j], id);
    } else {
      var k := AddedIsWanted(detections, classified, rows, config, now, j);
      AddedIsFresh(kept, Chosen(Recommend(detections, classified, OpenIdsIn(kept), config, now)), now, i, j);
      SameTest(t.aliases, id, recorded[j].identityId, recorded[i].identityId);
      if i < |rows| {
        OldRowsStay(detections, classified, rows, config, now, i);
        assert OpenFor(t.aliases, kept[i], detections[k].identityId);
        assert Misnamed(t.aliases, kept, detections[k], classified, config, id);
      } else {
        var l := AddedIsWanted(detections, classified, rows, config, now, i);
        SameTest(t.aliases, id, recorded[i].identityId, recorded[j].identityId);
        assert false;
      }
    }
  }

  lemma {:induction false} KeptDoubles(t: Tables, detections: seq<Detection>, classified: map<nat, CauseCode>,
                                       rows: seq<Row>, config: PolicyConfig, now: int, id: nat)
    requires Doubled(t.aliases, ExpireAll(rows, now), id)
    ensures Doubled(t.aliases, Recorded(detections, classified, rows, config, now), id)
  {
    var kept, recorded := ExpireAll(rows, now), Recorded(detections, classified, rows, config, now);
    var i, j :| 0 <= i < j < |kept| && OpenFor(t.aliases, kept[i], id) && OpenFor(t.aliases, kept[j], id);
    OldRowsStay(detections, classified, rows, config, now, i);
    OldRowsStay(detections, classified, rows, config, now, j);
    assert OpenFor(t.aliases, recorded[i], id) && OpenFor(t.aliases, recorded[j], id);
  }

  lemma {:induction false} MisnamedDoubles(t: Tables, detections: seq<Detection>, classified: map<nat, CauseCode>,
                                           rows: seq<Row>, config: PolicyConfig, now: int, id: nat, k: nat)
    requires k < |detections|
    requires Misnamed(t.aliases, ExpireAll(rows, now), detections[k], classified, config, id)
    ensures Doubled(t.aliases, Recorded(detections, classified, rows, config, now), id)
  {
    var kept, recorded := ExpireAll(rows, now), Recorded(detections, classified, rows, config, now);
    var named := detections[k].identityId;
    var i :| 0 <= i < |kept| && OpenFor(t.aliases, kept[i], named) && kept[i].identityId != named;
    OldRowsStay(detections, classified, rows, config, now, i);
    ConnectedTransitive(t.aliases, id, named, kept[i].identityId);
    CondemnedIsOpen(detections, classified, rows, config, now, k);
    var j :| 0 <= j < |recorded| && recorded[j].identityId == named && recorded[j].state.IsOpen();
    assert OpenFor(t.aliases, recorded[i], id) && OpenFor(t.aliases, recorded[j], id) && i != j;
  }

  // ---- what releasing leaves ---------------------------------------------

  lemma {:induction false} SameRecent(t: Tables, a: nat, b: nat)
    requires Connected(t.aliases, a, b)
    ensures Recent(t, a) == Recent(t, b)
  {
    ConnectedSelf(t.aliases, b);
    GroupsPartition(t.aliases, a, b, b);
    ComponentIsConnected(t.aliases, a);
    ComponentIsConnected(t.aliases, b);
    assert Component(t.aliases, a) == Component(t.aliases, b);
  }

  lemma {:induction false} OpenForAfter(t: Tables, rows: seq<Row>, config: PolicyConfig, now: int, id: nat, i: nat)
    requires i < |rows|
    ensures OpenFor(t.aliases, ReleaseAll(t, rows, config, now)[i], id) <==>
      OpenFor(t.aliases, rows[i], id) && !Clean(Recent(t, id), config.cleanRuns)
  {
    var row := rows[i];
    if Connected(t.aliases, id, row.identityId) {
      SameRecent(t, id, row.identityId);
      ReleaseIff(Recent(t, id), config);
    }
  }

  /** All the open rows of a logical test are released together, or none. */
  lemma {:induction false} ReleasedTogether(t: Tables, rows: seq<Row>, config: PolicyConfig, now: int, id: nat)
    ensures Doubled(t.aliases, ReleaseAll(t, rows, config, now), id) <==>
      Doubled(t.aliases, rows, id) && !Clean(Recent(t, id), config.cleanRuns)
  {
    var after := ReleaseAll(t, rows, config, now);
    forall i: nat | i < |rows|
      ensures OpenFor(t.aliases, after[i], id) <==>
        OpenFor(t.aliases, rows[i], id) && !Clean(Recent(t, id), config.cleanRuns)
    {
      OpenForAfter(t, rows, config, now, id, i);
    }
    if Doubled(t.aliases, after, id) {
      var i, j :| 0 <= i < j < |after| && OpenFor(t.aliases, after[i], id) && OpenFor(t.aliases, after[j], id);
      assert OpenFor(t.aliases, rows[i], id) && OpenFor(t.aliases, rows[j], id);
    }
    if Doubled(t.aliases, rows, id) && !Clean(Recent(t, id), config.cleanRuns) {
      var i, j :| 0 <= i < j < |rows| && OpenFor(t.aliases, rows[i], id) && OpenFor(t.aliases, rows[j], id);
      assert OpenFor(t.aliases, after[i], id) && OpenFor(t.aliases, after[j], id);
    }
  }

  // ---- the whole command -------------------------------------------------

  /** After `--apply` a logical test has two open quarantines exactly when it had two that did not expire, or is
      condemned while it has an open one under another of its identities; and its clean runs do not release it. */
  lemma {:induction false} DoubledIff(t: Tables, detections: seq<Detection>, classified: map<nat, CauseCode>,
                                      rows: seq<Row>, config: PolicyConfig, now: int, id: nat)
    requires DetectAll.OnePerTest(t.aliases, detections)
    ensures
      var kept := ExpireAll(rows, now);
      Doubled(t.aliases, Applied(t, detections, classified, rows, config, now), id) <==>
      && !Clean(Recent(t, id), config.cleanRuns)
      && (Doubled(t.aliases, kept, id) || AnyMisnamed(t.aliases, kept, detections, classified, config, id))
  {
    var kept, recorded := ExpireAll(rows, now), Recorded(detections, classified, rows, config, now);
    ReleasedTogether(t, recorded, config, now, id);
    if Doubled(t.aliases, recorded, id) { DoubledHow(t, detections, classified, rows, config, now, id); }
    if Doubled(t.aliases, kept, id) { KeptDoubles(t, detections, classified, rows, config, now, id); }
    if AnyMisnamed(t.aliases, kept, detections, classified, config, id) {
      var k :| 0 <= k < |detections| && Misnamed(t.aliases, kept, detections[k], classified, config, id);
      MisnamedDoubles(t, detections, classified, rows, config, now, id, k);
    }
  }

  /** Without renames the condition cannot hold: a sound table stays at one quarantine for each test. */
  lemma {:induction false} NoRenamesNoDoubles(t: Tables, detections: seq<Detection>, classified: map<nat, CauseCode>,
                                              rows: seq<Row>, config: PolicyConfig, now: int, id: nat)
    requires Sound(rows) && t.aliases == []
    ensures !Doubled(t.aliases, Applied(t, detections, classified, rows, config, now), id)
  {
    var after := Applied(t, detections, classified, rows, config, now);
    ApplyKeeps(t, detections, classified, rows, config, now);
    if Doubled(t.aliases, after, id) {
      var i, j :| 0 <= i < j < |after| && OpenFor(t.aliases, after[i], id) && OpenFor(t.aliases, after[j], id);
      OnlyItself(t.aliases, id, after[i].identityId);
      OnlyItself(t.aliases, id, after[j].identityId);
      assert false;
    }
  }

  lemma {:induction false} OnlyItself(aliases: seq<AliasRow>, a: nat, b: nat)
    requires aliases == [] && Connected(aliases, a, b)
    ensures a == b
  {
    var p :| WalkBetween(aliases, p, a, b);
  }

  // ---- a renamed test ----------------------------------------------------

  const STRICTER := ApplyAgain.POLICY.(cleanRuns := 2)

  lemma {:induction false} NotYetClean()
    ensures !Clean(Recent(ApplyAgain.StoreOf(true), 1), STRICTER.cleanRuns)
  {
    ApplyAgain.WholeHistory(true, RECENT_LIMIT);
    var records := ApplyAgain.NewestFirst(true);
    ReleaseIff(records, STRICTER);
    FlagsOf(records);
    FlagsOf(records[1..]);
  }

  /** A valid store whose test was renamed while quarantined, with the detection the detector makes of it: `--apply`
      quarantines it a second time, under its new name. */
  lemma {:induction false} QuarantinedTwice(platform: ExecutionRecord -> bool, context: HistoryOf -> BranchContext,
                                            detect: DetectConfig, row: Row, now: int) returns (d: Detection)
    requires detect.windowExecutions >= 2
    requires row.identityId == 0 && row.state.IsOpen() && row.expiresAt > now
    ensures Valid(ApplyAgain.StoreOf(true)) && PolicyOk(STRICTER)
    ensures DetectAll.Reports(ApplyAgain.StoreOf(true), d, 1, platform, context, detect, None)
    ensures Doubled(ApplyAgain.StoreOf(true).aliases,
                    Applied(ApplyAgain.StoreOf(true), [d], map[], [row], STRICTER, now), 1)
  {
    var t := ApplyAgain.StoreOf(true);
    ApplyAgain.StoreIsValid(true);
    ApplyAgain.IsReported(true, platform, context, detect);
    ApplyAgain.Detected(true, context(ApplyAgain.OneWindow(true)), detect);
    d := DetectForHistory(1, ApplyAgain.OneWindow(true), context(ApplyAgain.OneWindow(true)), false, detect);
    RenamedIsMisnamed(d, row, now);
    NotYetClean();
    DoubledIff(t, [d], map[], [row], STRICTER, now, 1);
  }

  lemma {:induction false} RenamedIsMisnamed(d: Detection, row: Row, now: int)
    requires ApplyAgain.IsItsDetection(true, d)
    requires row.identityId == 0 && row.state.IsOpen() && row.expiresAt > now
    ensures AnyMisnamed(ApplyAgain.StoreOf(true).aliases, ExpireAll([row], now), [d], map[], STRICTER, 1)
  {
    var aliases, kept := ApplyAgain.StoreOf(true).aliases, ExpireAll([row], now);
    ApplyAgain.OneTest(true);
    ComponentIsConnected(aliases, 1);
    RecommendedIff(d, None, false, STRICTER, 0);
    assert kept[0] == row && OpenFor(aliases, kept[0], 1);
    assert Misnamed(aliases, kept, [d][0], map[], STRICTER, 1);
  }
}

/** cli.py: what `policy` does with the stored quarantines, in order: expire, evaluate, record, release. */
module Policy {
  import opened Models
  import opened Tables
  import opened Store
  import opened Detector
  import opened Quarantine
  import opened Records

  const RECENT_LIMIT: nat := 50

  ghost function Recent(t: Tables, id: nat): seq<ExecutionRecord> {
    NewestOf(t, Component(t.aliases, id), Some(RECENT_LIMIT))
  }

  /** The clean runs a test has behind it, by its group's recent history. */
  ghost function CleanNow(t: Tables, id: nat): nat { CleanRuns(Flags(Recent(t, id))) }

  function Latest(classified: map<nat, CauseCode>, id: nat): Option<CauseCode> {
    if id in classified then Some(classified[id]) else None
  }

  /** One decision per detection, against the identities already quarantined. */
  function Recommend(detections: seq<Detection>, classified: map<nat, CauseCode>, open: set<nat>, config: PolicyConfig,
                     now: int)
    : (rs: seq<Recommendation>)
    ensures |rs| == |detections|
  {
    seq(|detections|, i requires 0 <= i < |detections| =>
      var id := detections[i].identityId;
      Evaluate(detections[i], Latest(classified, id), id in open, config, now))
  }

  function Chosen(rs: seq<Recommendation>): seq<Recommendation> {
    if rs == [] then []
    else Chosen(rs[..|rs| - 1]) + if rs[|rs| - 1].recommended then [rs[|rs| - 1]] else []
  }

  /** A row after the release check of its test. */
  ghost function Checked(t: Tables, r: Row, config: PolicyConfig, now: int): Row {
    var clean := CleanNow(t, r.identityId);
    if r.state.IsOpen() && ShouldRelease(clean, config) then
      r.(state := Released, closedAt := Some(now), closeReason := Some(CleanExecutions(clean)))
    else r
  }

  ghost function ReleaseAll(t: Tables, rows: seq<Row>, config: PolicyConfig, now: int): (r: seq<Row>)
    ensures |r| == |rows|
  {
    seq(|rows|, i requires 0 <= i < |rows| => Checked(t, rows[i], config, now))
  }

  ghost function Recorded(detections: seq<Detection>, classified: map<nat, CauseCode>, rows: seq<Row>,
                          config: PolicyConfig, now: int): seq<Row> {
    var kept := ExpireAll(rows, now);
    RecordAll(kept, Chosen(Recommend(detections, classified, OpenIdsIn(kept), config, now)), now)
  }

  /** The quarantine table after `policy --apply`. */
  ghost function Applied(t: Tables, detections: seq<Detection>, classified: map<nat, CauseCode>, rows: seq<Row>,
                         config: PolicyConfig, now: int): seq<Row> {
    ReleaseAll(t, Recorded(detections, classified, rows, config, now), config, now)
  }

  method RecommendEach(detections: seq<Detection>, classified: map<nat, CauseCode>, open: set<nat>,
                       config: PolicyConfig, now: int)
    returns (rs: seq<Recommendation>)
    ensures rs == Recommend(detections, classified, open, config, now)
  {
    rs := [];
    for k := 0 to |detections|
      invariant |rs| == k
      invariant forall i :: 0 <= i < k ==> rs[i] == Recommend(detections, classified, open, config, now)[i]
    {
      var d := detections[k];
      rs := rs + [Evaluate(d, Latest(classified, d.identityId), d.identityId in open, config, now)];
    }
  }

  method KeepRecommended(all: seq<Recommendation>) returns (rs: seq<Recommendation>)
    ensures rs == Chosen(all)
  {
    rs := [];
    for k := 0 to |all|
      invariant rs == Chosen(all[..k])
    {
      assert all[..k + 1][..k] == all[..k];
      if all[k].recommended {
        rs := rs + [all[k]];
      }
    }
    assert all[..|all|] == all;
  }

  /** What the release loop has done after the listed rows in `done`. */
  ghost predicate ReleasedSoFar(t: Tables, before: seq<Row>, after: seq<Row>, done: seq<nat>, config: PolicyConfig,
                                now: int) {
    && |after| == |before|
    && forall i: nat :: i < |before| ==> after[i] == if i in done then Checked(t, before[i], config, now) else before[i]
  }

  /** One iteration: the row is still as listed, since the listing names it once. */
  method ReleaseOne(store: RunStore, quarantines: QuarantineStore, id: nat, config: PolicyConfig,
                    now: int) returns (released: bool)
    requires id < |quarantines.rows| && quarantines.rows[id].state.IsOpen()
    modifies quarantines
    ensures quarantines.rows ==
      old(quarantines.rows)[id := Checked(store.View(), old(quarantines.rows)[id], config, now)]
    ensures released <==> ShouldRelease(CleanNow(store.View(), old(quarantines.rows)[id].identityId), config)
  {
    var outcomes := store.RecentOutcomes(quarantines.rows[id].identityId, RECENT_LIMIT);
    var clean := ConsecutiveCleanRuns(outcomes);
    released := ShouldRelease(clean, config);
    if released {
      var _ := quarantines.Release(id, clean, now);
    }
  }

  lemma {:induction false} ReleaseStep(t: Tables, before: seq<Row>, rows: seq<Row>, done: seq<nat>, id: nat,
                                       config: PolicyConfig, now: int)
    requires ReleasedSoFar(t, before, rows, done, config, now) && id < |before| && id !in done
    ensures rows[id] == before[id]
    ensures ReleasedSoFar(t, before, rows[id := Checked(t, before[id], config, now)], done + [id], config, now)
  {
  }

  lemma {:induction false} ReleaseEnd(t: Tables, before: seq<Row>, after: seq<Row>, config: PolicyConfig, now: int)
    requires ReleasedSoFar(t, before, after, Listing(before), config, now)
    ensures after == ReleaseAll(t, before, config, now)
  {
    ListingIs(before);
    forall i: nat | i < |before| ensures after[i] == ReleaseAll(t, before, config, now)[i] {
      assert i in Listing(before) <==> before[i].state.IsOpen();
    }
  }

  method ReleaseEarned(store: RunStore, quarantines: QuarantineStore, config: PolicyConfig,
                       now: int) returns (released: seq<nat>)
    modifies quarantines
    ensures quarantines.rows == ReleaseAll(store.View(), old(quarantines.rows), config, now)
    ensures forall id: nat :: id in released <==>
      id < |quarantines.rows| && old(quarantines.rows)[id].state.IsOpen() && quarantines.rows[id].state.Released?
  {
    ghost var before, t := quarantines.rows, store.View();
    var ids := Listing(quarantines.rows);
    ListingIs(before);
    released := [];
    for k := 0 to |ids|
      invariant store.View() == t
      invariant ReleasedSoFar(t, before, quarantines.rows, ids[..k], config, now)
      invariant forall id: nat :: id in released <==>
        id in ids[..k] && id < |before| && ShouldRelease(CleanNow(t, before[id].identityId), config)
    {
      assert ids[..k + 1] == ids[..k] + [ids[k]];
      assert ids[k] in ids && ids[k] !in ids[..k];
      ReleaseStep(t, before, quarantines.rows, ids[..k], ids[k], config, now);
      var done := ReleaseOne(store, quarantines, ids[k], config, now);
      if done {
        released := released + [ids[k]];
      }
    }
    assert ids[..|ids|] == ids;
    ReleaseEnd(t, before, quarantines.rows, config, now);
  }

  method RunPolicy(store: RunStore, quarantines: QuarantineStore, detections: seq<Detection>,
                   classified: map<nat, CauseCode>, config: PolicyConfig, applyChanges: bool, now: int)
    returns (recommendations: seq<Recommendation>, expired: seq<nat>, released: seq<nat>)
    modifies quarantines
    ensures
      var kept := if applyChanges then ExpireAll(old(quarantines.rows), now) else old(quarantines.rows);
      recommendations == Recommend(detections, classified, OpenIdsIn(kept), config, now)
    ensures quarantines.rows ==
      if applyChanges then Applied(store.View(), detections, classified, old(quarantines.rows), config, now)
      else old(quarantines.rows)
    ensures forall id: nat :: id in expired <==>
      applyChanges && id < |old(quarantines.rows)| && Overdue(old(quarantines.rows)[id], now)
    ensures !applyChanges ==> released == []
    ensures
      var recorded := Recorded(detections, classified, old(quarantines.rows), config, now);
      applyChanges ==>
      forall id: nat :: id in released <==>
        id < |quarantines.rows| && recorded[id].state.IsOpen() && quarantines.rows[id].state.Released?
  {
    expired, released := [], [];
    if applyChanges {
      expired := quarantines.ExpireOverdue(now);
    }
    var open := quarantines.OpenIds();
    recommendations := RecommendEach(detections, classified, open, config, now);
    if applyChanges {
      var chosen := KeepRecommended(recommendations);
      var _ := quarantines.Record(chosen, now);
      released := ReleaseEarned(store, quarantines, config, now);
    }
  }
}

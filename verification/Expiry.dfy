/** When a quarantine ends by itself: so many days after it was recommended, not before, and at the first look after. */
module Expiry {
  import opened Models
  import opened Tables
  import opened Detector
  import opened Quarantine
  import opened Records
  import opened RecordLaws
  import opened Policy
  import opened PolicyLaws

  function Deadline(now: int, days: nat): int { now + days * (24 * 60 * 60) }

  function CauseFor(classified: map<nat, CauseCode>, id: nat): CauseCode {
    if id in classified then classified[id] else Unknown
  }

  /** What a new row records of the detection it was made for. */
  ghost predicate MadeFor(row: Row, d: Detection, classified: map<nat, CauseCode>, config: PolicyConfig, now: int) {
    && row.identityId == d.identityId && row.flakeRate == d.flakeRate && row.observations == d.observations
    && row.cause == CauseFor(classified, d.identityId)
    && row.createdAt == now && row.ttlDays == config.ttlDays && row.expiresAt == Deadline(now, config.ttlDays)
    && row.cleanRunsRequired == config.cleanRuns
  }

  ghost predicate MadeForOne(row: Row, detections: seq<Detection>, classified: map<nat, CauseCode>,
                             config: PolicyConfig, now: int) {
    exists k :: 0 <= k < |detections| && MadeFor(row, detections[k], classified, config, now)
  }

  lemma {:induction false} ChosenIsMadeFor(detections: seq<Detection>, classified: map<nat, CauseCode>, open: set<nat>,
                                           config: PolicyConfig, now: int, row: Row)
    requires MadeFrom(row, Chosen(Recommend(detections, classified, open, config, now)), now)
    ensures MadeForOne(row, detections, classified, config, now) && row.state.Recommended?
  {
    var rs := Recommend(detections, classified, open, config, now);
    ChosenAre(rs);
    var r :| r in Chosen(rs) && r.recommended && row == MakeRow(r, Recommended, now);
    var k :| 0 <= k < |rs| && rs[k] == r;
    assert MadeFor(row, detections[k], classified, config, now);
  }

  /** Each row that `--apply` adds records one of its detections and runs for the configured number of days. */
  lemma {:induction false} AddedRows(t: Tables, detections: seq<Detection>, classified: map<nat, CauseCode>,
                                     rows: seq<Row>, config: PolicyConfig, now: int, i: nat)
    requires |rows| <= i < |Applied(t, detections, classified, rows, config, now)|
    ensures MadeForOne(Applied(t, detections, classified, rows, config, now)[i], detections, classified, config, now)
  {
    var kept := ExpireAll(rows, now);
    var chosen := Chosen(Recommend(detections, classified, OpenIdsIn(kept), config, now));
    var recorded := Recorded(detections, classified, rows, config, now);
    RecordAppends(kept, chosen, now);
    assert MadeFrom(recorded[i], chosen, now);
    ChosenIsMadeFor(detections, classified, OpenIdsIn(kept), config, now, recorded[i]);
    var k :| 0 <= k < |detections| && MadeFor(recorded[i], detections[k], classified, config, now);
    assert MadeFor(Checked(t, recorded[i], config, now), detections[k], classified, config, now);
  }

  // ---- over any sequence of steps ----------------------------------------

  /** Row `i` was added by step `n`, an `--apply`. */
  ghost predicate AddedAt(steps: seq<Step>, n: nat, i: nat) {
    && n < |steps| && steps[n].Apply?
    && |After(steps[..n])| <= i < |After(steps[..n + 1])|
  }

  ghost function EndOf(steps: seq<Step>, n: nat): int
    requires n < |steps| && steps[n].Apply?
  {
    Deadline(steps[n].now, steps[n].config.ttlDays)
  }

  lemma {:induction false} AfterStep(steps: seq<Step>, n: nat)
    requires n < |steps|
    ensures After(steps[..n + 1]) == Do(After(steps[..n]), steps[n])
  {
    assert steps[..n + 1][..n] == steps[..n];
  }

  lemma {:induction false} KeepsDeadline(steps: seq<Step>, n: nat, i: nat, m: nat)
    requires AddedAt(steps, n, i) && n < m <= |steps|
    ensures i < |After(steps[..m])| && After(steps[..m])[i].expiresAt == EndOf(steps, n)
    ensures After(steps[..m])[i].ttlDays == steps[n].config.ttlDays
  {
    var s := steps[n];
    AfterStep(steps, n);
    AddedRows(s.t, s.detections, s.classified, After(steps[..n]), s.config, s.now, i);
    ClosedIsForever(steps[..m], n + 1);
    assert steps[..m][..n + 1] == steps[..n + 1];
    assert RowEvolves(After(steps[..n + 1])[i], After(steps[..m])[i]);
  }

  /** Such a row is never expired before its days are over, whatever was done. */
  lemma {:induction false} NeverExpiredEarly(steps: seq<Step>, n: nat, i: nat)
    requires AddedAt(steps, n, i)
    ensures i < |After(steps)|
    ensures var row := After(steps)[i];
      row.state.Expired? ==>
        && row.closedAt.Some? && row.closedAt.value >= EndOf(steps, n)
        && row.closeReason == Some(TtlElapsed(steps[n].config.ttlDays))
  {
    assert steps[..|steps|] == steps;
    KeepsDeadline(steps, n, i, |steps|);
    EveryLifecycleIsSound(steps);
    assert RowOk(After(steps)[i]);
  }

  /** An expiry at a given instant closes an open row exactly when its days are over by then. */
  lemma {:induction false} ExpiresIff(steps: seq<Step>, n: nat, i: nat, m: nat, now: int)
    requires AddedAt(steps, n, i) && n < m < |steps| && steps[m] == ExpireOverdue(now)
    requires i < |After(steps[..m])| && After(steps[..m])[i].state.IsOpen()
    ensures i < |After(steps[..m + 1])|
    ensures var row := After(steps[..m + 1])[i];
      if now >= EndOf(steps, n) then row.state.Expired? && row.closedAt == Some(now)
      else row == After(steps[..m])[i]
  {
    KeepsDeadline(steps, n, i, m);
    AfterStep(steps, m);
  }

  /** So does an `--apply`, which leaves no such row open: one that is not expired may only be released. */
  lemma {:induction false} ApplyExpiresIff(steps: seq<Step>, n: nat, i: nat, m: nat)
    requires AddedAt(steps, n, i) && n < m < |steps| && steps[m].Apply?
    requires i < |After(steps[..m])| && After(steps[..m])[i].state.IsOpen()
    ensures i < |After(steps[..m + 1])|
    ensures var row := After(steps[..m + 1])[i];
      && (row.state.Expired? <==> steps[m].now >= EndOf(steps, n))
      && (row.state.Expired? ==> row.closedAt == Some(steps[m].now))
      && (!row.state.Expired? ==> row == After(steps[..m])[i] || row.state.Released?)
  {
    var s, before := steps[m], After(steps[..m]);
    var kept := ExpireAll(before, s.now);
    KeepsDeadline(steps, n, i, m);
    AfterStep(steps, m);
    RecordAppends(kept, Chosen(Recommend(s.detections, s.classified, OpenIdsIn(kept), s.config, s.now)), s.now);
    assert Recorded(s.detections, s.classified, before, s.config, s.now)[..|kept|][i] == kept[i];
  }
}

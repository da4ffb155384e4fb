/** The commit windows, said of the records they come from. */
module HistoryFacts {
  import opened Store
  import opened History
  import opened HistoryLaws
  import Picking

  /** An error that the patterns put down to the platform. */
  predicate PlatformError(r: ExecutionRecord, platform: ExecutionRecord -> bool) { r.outcome.Error? && platform(r) }

  predicate CountsFor(r: ExecutionRecord, platform: ExecutionRecord -> bool, sha: nat) {
    !PlatformError(r, platform) && r.commitSha == sha
  }

  // ---- which records a window holds --------------------------------------

  ghost predicate WindowPicked(records: seq<ExecutionRecord>, platform: ExecutionRecord -> bool, sha: nat,
                               held: seq<ExecutionRecord>) {
    Picking.Picked(records, held, (r: ExecutionRecord) => CountsFor(r, platform, sha))
  }

  lemma {:induction false} KeptSnoc(records: seq<ExecutionRecord>, platform: ExecutionRecord -> bool,
                                    last: ExecutionRecord)
    ensures Kept(records + [last], platform) ==
      if PlatformError(last, platform) then Kept(records, platform) else Kept(records, platform) + [last]
  {
    assert (records + [last])[..|records|] == records;
  }

  lemma {:induction false} OfShaSnoc(kept: seq<ExecutionRecord>, sha: nat, last: ExecutionRecord)
    ensures OfSha(kept + [last], sha) == if last.commitSha == sha then OfSha(kept, sha) + [last] else OfSha(kept, sha)
  {
    assert (kept + [last])[..|kept|] == kept;
  }

  lemma {:induction false} PickedStep(records: seq<ExecutionRecord>, platform: ExecutionRecord -> bool, sha: nat,
                                      last: ExecutionRecord, all: seq<ExecutionRecord>)
    requires all == records + [last] && WindowPicked(records, platform, sha, OfSha(Kept(records, platform), sha))
    ensures WindowPicked(all, platform, sha, OfSha(Kept(all, platform), sha))
  {
    var held := OfSha(Kept(records, platform), sha);
    Picking.PickedSnoc(records, held, (r: ExecutionRecord) => CountsFor(r, platform, sha), last);
    KeptSnoc(records, platform, last);
    OfShaSnoc(Kept(records, platform), sha, last);
  }

  lemma {:induction false} NonePicked(platform: ExecutionRecord -> bool, sha: nat)
    ensures WindowPicked([], platform, sha, [])
  {
    Picking.PickedNone((r: ExecutionRecord) => CountsFor(r, platform, sha));
  }

  lemma {:induction false} CommitIsPicked(records: seq<ExecutionRecord>, platform: ExecutionRecord -> bool, sha: nat)
    ensures WindowPicked(records, platform, sha, OfSha(Kept(records, platform), sha))
    decreases |records|
  {
    if records == [] {
      NonePicked(platform, sha);
    } else {
      CommitIsPicked(records[..|records| - 1], platform, sha);
      PickedStep(records[..|records| - 1], platform, sha, records[|records| - 1], records);
    }
  }

  // ---- what is left out --------------------------------------------------

  predicate IsSkip(r: ExecutionRecord) { r.outcome.Skip? }

  ghost predicate LeftOut(records: seq<ExecutionRecord>, platform: ExecutionRecord -> bool, excluded: nat,
                          skipped: nat) {
    && excluded == |Picking.At(records, (r: ExecutionRecord) => PlatformError(r, platform))|
    && skipped == |Picking.At(records, IsSkip)|
  }

  lemma {:induction false} LeftOutNone(platform: ExecutionRecord -> bool)
    ensures LeftOut([], platform, 0, 0)
  {
    Picking.AtNone((r: ExecutionRecord) => PlatformError(r, platform));
    Picking.AtNone(IsSkip);
  }

  lemma {:induction false} LeftOutSnoc(records: seq<ExecutionRecord>, platform: ExecutionRecord -> bool,
                                       last: ExecutionRecord, all: seq<ExecutionRecord>, excluded: nat, skipped: nat)
    requires all == records + [last] && LeftOut(records, platform, excluded, skipped)
    ensures LeftOut(all, platform, if PlatformError(last, platform) then excluded + 1 else excluded,
                    if IsSkip(last) then skipped + 1 else skipped)
  {
    Picking.AtSnoc(records, (r: ExecutionRecord) => PlatformError(r, platform), last, all);
    Picking.AtSnoc(records, IsSkip, last, all);
  }

  lemma {:induction false} SkipSnoc(kept: seq<ExecutionRecord>, last: ExecutionRecord)
    ensures SkipCount(kept + [last]) == SkipCount(kept) + if IsSkip(last) then 1 else 0
  {
    assert (kept + [last])[..|kept|] == kept;
  }

  lemma {:induction false} CountsAre(records: seq<ExecutionRecord>, platform: ExecutionRecord -> bool)
    ensures LeftOut(records, platform, InfraCount(records, platform), SkipCount(Kept(records, platform)))
    decreases |records|
  {
    if records == [] {
      LeftOutNone(platform);
    } else {
      var rest, last := records[..|records| - 1], records[|records| - 1];
      CountsAre(rest, platform);
      LeftOutSnoc(rest, platform, last, records, InfraCount(rest, platform), SkipCount(Kept(rest, platform)));
      SkipSnoc(Kept(rest, platform), last);
    }
  }

  // ---- the history -------------------------------------------------------

  ghost predicate FirstStarts(r: ExecutionRecord, records: seq<ExecutionRecord>) {
    r in records && forall q :: q in records ==> r.startedAt <= q.startedAt
  }

  /** The first start of one window is not after that of the other, and shas decide if they are equal. */
  ghost predicate Precedes(a: Window, b: Window) {
    exists r, q :: FirstStarts(r, a.records) && FirstStarts(q, b.records) &&
      (r.startedAt < q.startedAt || (r.startedAt == q.startedAt && a.commitSha <= b.commitSha))
  }

  lemma {:induction false} BeforePrecedes(a: Window, b: Window)
    requires a.records != [] && b.records != [] && Before(Summarize(a), Summarize(b))
    ensures Precedes(a, b)
  {
    StartedAtIsLeast(a.records);
    StartedAtIsLeast(b.records);
    var r :| r in a.records && r.startedAt == StartedAt(a.records);
    var q :| q in b.records && q.startedAt == StartedAt(b.records);
    assert FirstStarts(r, a.records) && FirstStarts(q, b.records);
  }

  lemma {:induction false} KeptHas(records: seq<ExecutionRecord>, platform: ExecutionRecord -> bool)
    ensures forall r :: r in Kept(records, platform) <==> r in records && !PlatformError(r, platform)
    decreases |records|
  {
    if records != [] {
      var n := |records| - 1;
      KeptHas(records[..n], platform);
      KeptSnoc(records[..n], platform, records[n]);
      assert records[..n] + [records[n]] == records;
    }
  }

  lemma {:induction false} EveryCommitHasOne(h: HistoryOf, records: seq<ExecutionRecord>,
                                             platform: ExecutionRecord -> bool, r: ExecutionRecord)
    requires IsHistory(h, records, platform) && r in records && !PlatformError(r, platform)
    ensures exists w :: w in h.windows && w.commitSha == r.commitSha
  {
    KeptHas(records, platform);
    var kept := Kept(records, platform);
    assert r.commitSha in Shas(kept);
    assert Window(r.commitSha, OfSha(kept, r.commitSha)) in h.windows;
  }

  lemma {:induction false} WindowsInOrder(h: HistoryOf, records: seq<ExecutionRecord>,
                                          platform: ExecutionRecord -> bool, i: nat, j: nat)
    requires IsHistory(h, records, platform) && i < j < |h.windows|
    ensures h.windows[i].commitSha != h.windows[j].commitSha && Precedes(h.windows[i], h.windows[j])
  {
    var kept := Kept(records, platform);
    assert h.windows[i] in h.windows && h.windows[j] in h.windows && h.windows[i] != h.windows[j];
    assert WindowBefore(h.windows[i], h.windows[j]);
    BeforePrecedes(h.windows[i], h.windows[j]);
  }

  ghost predicate Ordered(windows: seq<Window>) {
    forall i, j :: 0 <= i < j < |windows| ==>
      windows[i].commitSha != windows[j].commitSha && Precedes(windows[i], windows[j])
  }

  ghost predicate HoldThem(windows: seq<Window>, records: seq<ExecutionRecord>, platform: ExecutionRecord -> bool) {
    forall w :: w in windows ==> w.records != [] && WindowPicked(records, platform, w.commitSha, w.records)
  }

  /** The windows are one for each commit that has a record not put down to the platform, holding just those records of
      the commit in the order they came; windows come by first start and then by sha; the rest is counted. */
  lemma {:induction false} WindowsAre(h: HistoryOf, records: seq<ExecutionRecord>, platform: ExecutionRecord -> bool)
    requires IsHistory(h, records, platform)
    ensures HoldThem(h.windows, records, platform) && Ordered(h.windows)
    ensures forall r :: r in records && !PlatformError(r, platform) ==>
      exists w :: w in h.windows && w.commitSha == r.commitSha
    ensures LeftOut(records, platform, h.infraExcluded, h.skipped)
  {
    CountsAre(records, platform);
    forall w | w in h.windows ensures w.records != [] && WindowPicked(records, platform, w.commitSha, w.records) {
      CommitIsPicked(records, platform, w.commitSha);
    }
    forall r | r in records && !PlatformError(r, platform)
      ensures exists w :: w in h.windows && w.commitSha == r.commitSha
    {
      EveryCommitHasOne(h, records, platform, r);
    }
    forall i, j | 0 <= i < j < |h.windows|
      ensures h.windows[i].commitSha != h.windows[j].commitSha && Precedes(h.windows[i], h.windows[j])
    {
      WindowsInOrder(h, records, platform, i, j);
    }
  }
}

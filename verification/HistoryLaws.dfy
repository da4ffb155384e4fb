/** The window sequence does not depend on the order of the records or on infrastructure failures,
    and no record is counted twice or lost. */
module HistoryLaws {
  import opened Store
  import opened Sorting
  import opened History

  // ---- what the kept records are -----------------------------------------

  lemma {:induction false} KeptCounts(records: seq<ExecutionRecord>, platform: ExecutionRecord -> bool,
                                      r: ExecutionRecord)
    ensures multiset(Kept(records, platform))[r] == if IsInfraFailure(r, platform) then 0 else multiset(records)[r]
  {
    if records != [] {
      KeptCounts(records[..|records| - 1], platform, r);
      assert records == records[..|records| - 1] + [records[|records| - 1]];
    }
  }

  lemma {:induction false} OfShaCounts(kept: seq<ExecutionRecord>, sha: nat, r: ExecutionRecord)
    ensures multiset(OfSha(kept, sha))[r] == if r.commitSha == sha then multiset(kept)[r] else 0
  {
    if kept != [] {
      OfShaCounts(kept[..|kept| - 1], sha, r);
      assert kept == kept[..|kept| - 1] + [kept[|kept| - 1]];
    }
  }

  lemma {:induction false} WeighAppend(a: seq<ExecutionRecord>, b: seq<ExecutionRecord>, weight: ExecutionRecord -> nat)
    ensures Weigh(a + b, weight) == Weigh(a, weight) + Weigh(b, weight)
    decreases |b|
  {
    if b == [] {
      assert a + b == a;
    } else {
      assert (a + b)[..|a + b| - 1] == a + b[..|b| - 1];
      WeighAppend(a, b[..|b| - 1], weight);
    }
  }

  lemma {:induction false} WeighForgetsOrder(a: seq<ExecutionRecord>, b: seq<ExecutionRecord>,
                                             weight: ExecutionRecord -> nat)
    requires multiset(a) == multiset(b)
    ensures Weigh(a, weight) == Weigh(b, weight)
    decreases |a|
  {
    SameElements(a, b);
    if a != [] {
      var last, rest := a[|a| - 1], a[..|a| - 1];
      assert a == rest + [last];
      assert last in a && last in b;
      var k :| 0 <= k < |b| && b[k] == last;
      var p, q := b[..k], b[k + 1..];
      assert b == p + [last] + q;
      assert multiset(rest) == multiset(a) - multiset{last} && multiset(p + q) == multiset(b) - multiset{last};
      WeighForgetsOrder(rest, p + q, weight);
      WeighAppend(p + [last], q, weight);
      WeighAppend(p, [last], weight);
      WeighAppend(p, q, weight);
      WeighAppend(rest, [last], weight);
    }
  }

  lemma {:induction false} StartedAtIsLeast(records: seq<ExecutionRecord>)
    requires records != []
    ensures exists r :: r in records && r.startedAt == StartedAt(records)
    ensures forall r :: r in records ==> StartedAt(records) <= r.startedAt
  {
    assert records[0] in records;
    if |records| > 1 {
      var rest := records[1..];
      StartedAtIsLeast(rest);
      assert records == [records[0]] + rest;
      assert forall r :: r in records <==> r == records[0] || r in rest;
    }
  }

  /** A window's summary depends only on which records it holds, with multiplicity. */
  lemma SummaryForgetsOrder(sha: nat, a: seq<ExecutionRecord>, b: seq<ExecutionRecord>)
    requires a != [] && multiset(a) == multiset(b)
    ensures b != [] && Summarize(Window(sha, a)) == Summarize(Window(sha, b))
  {
    SameElements(a, b);
    StartedAtIsLeast(a);
    StartedAtIsLeast(b);
    WeighForgetsOrder(a, b, CountsIfObserved);
  }

  // ---- order and infrastructure failures are forgotten -------------------

  /** The two inputs hold the same records, infrastructure failures aside. */
  ghost predicate SameEvidence(a: seq<ExecutionRecord>, b: seq<ExecutionRecord>, platform: ExecutionRecord -> bool) {
    forall r :: !IsInfraFailure(r, platform) ==> multiset(a)[r] == multiset(b)[r]
  }

  lemma SameKept(a: seq<ExecutionRecord>, b: seq<ExecutionRecord>, platform: ExecutionRecord -> bool)
    requires SameEvidence(a, b, platform)
    ensures multiset(Kept(a, platform)) == multiset(Kept(b, platform))
  {
    forall r ensures multiset(Kept(a, platform))[r] == multiset(Kept(b, platform))[r] {
      KeptCounts(a, platform, r);
      KeptCounts(b, platform, r);
    }
  }

  lemma SameOfSha(a: seq<ExecutionRecord>, b: seq<ExecutionRecord>, sha: nat)
    requires multiset(a) == multiset(b)
    ensures multiset(OfSha(a, sha)) == multiset(OfSha(b, sha))
  {
    forall r ensures multiset(OfSha(a, sha))[r] == multiset(OfSha(b, sha))[r] {
      OfShaCounts(a, sha, r);
      OfShaCounts(b, sha, r);
    }
  }

  ghost predicate Nonempty(windows: seq<Window>) { forall w :: w in windows ==> w.records != [] }

  lemma WindowInOther(w: Window, a: seq<Window>, b: seq<Window>, kept: seq<ExecutionRecord>,
                      kept': seq<ExecutionRecord>)
    requires Windows(a, kept, Shas(kept)) && Windows(b, kept', Shas(kept')) && w in a
    requires multiset(kept) == multiset(kept')
    ensures exists w' :: w' in b && w'.commitSha == w.commitSha && Summarize(w') == Summarize(w)
  {
    SameElements(kept, kept');
    SameOfSha(kept, kept', w.commitSha);
    SummaryForgetsOrder(w.commitSha, OfSha(kept, w.commitSha), OfSha(kept', w.commitSha));
    assert w.commitSha in Shas(kept') by {
      var r :| r in kept && r.commitSha == w.commitSha;
      assert r in kept';
    }
    assert Window(w.commitSha, OfSha(kept', w.commitSha)) in b;
  }

  lemma SummariesWithin(a: seq<Window>, b: seq<Window>, kept: seq<ExecutionRecord>, kept': seq<ExecutionRecord>,
                        x: Summary)
    requires Windows(a, kept, Shas(kept)) && Windows(b, kept', Shas(kept')) && multiset(kept) == multiset(kept')
    requires x in Summaries(a)
    ensures x in Summaries(b)
  {
    var k :| 0 <= k < |a| && Summaries(a)[k] == x;
    assert a[k] in a;
    WindowInOther(a[k], a, b, kept, kept');
    var w' :| w' in b && w'.commitSha == a[k].commitSha && Summarize(w') == Summarize(a[k]);
    var j :| 0 <= j < |b| && b[j] == w';
    assert Summaries(b)[j] == x;
  }

  /** Windows of different commits have different summaries, and their order is strict. */
  lemma SummariesArranged(windows: seq<Window>, kept: seq<ExecutionRecord>)
    requires Windows(windows, kept, Shas(kept)) && InOrder(windows)
    ensures NoRepeats(Summaries(windows))
    ensures forall i, j :: 0 <= i < j < |windows| ==> Before(Summaries(windows)[i], Summaries(windows)[j])
    ensures NoTies(multiset(Summaries(windows)), Before)
  {
    var s := Summaries(windows);
    forall i, j | 0 <= i < j < |s| ensures s[i] != s[j] && Before(s[i], s[j]) {
      assert windows[i] in windows && windows[j] in windows && windows[i] != windows[j];
      assert WindowBefore(windows[i], windows[j]);
    }
    forall x, y | x in multiset(s) && y in multiset(s) && Before(x, y) && Before(y, x) ensures x == y {
      var i :| 0 <= i < |s| && s[i] == x;
      var j :| 0 <= j < |s| && s[j] == y;
      assert windows[i] in windows && windows[j] in windows;
    }
  }

  /** Any reordering of the records, and any insertion or removal of infrastructure failures, leaves
      every window's commit, start, status and counts as they were, in the same order. */
  lemma SummariesForgetOrder(h: HistoryOf, h': HistoryOf, a: seq<ExecutionRecord>, b: seq<ExecutionRecord>,
                             platform: ExecutionRecord -> bool)
    requires IsHistory(h, a, platform) && IsHistory(h', b, platform) && SameEvidence(a, b, platform)
    ensures Nonempty(h.windows) && Nonempty(h'.windows)
    ensures Summaries(h.windows) == Summaries(h'.windows)
    ensures h.skipped == h'.skipped
  {
    var kept, kept' := Kept(a, platform), Kept(b, platform);
    SameKept(a, b, platform);
    SummariesArranged(h.windows, kept);
    SummariesArranged(h'.windows, kept');
    forall x ensures x in Summaries(h.windows) <==> x in Summaries(h'.windows) {
      if x in Summaries(h.windows) { SummariesWithin(h.windows, h'.windows, kept, kept', x); }
      if x in Summaries(h'.windows) { SummariesWithin(h'.windows, h.windows, kept', kept, x); }
    }
    ArrangedUnique(Summaries(h.windows), Summaries(h'.windows), Before);
    SkipsAre(kept);
    SkipsAre(kept');
    SameElements(kept, kept');
    WeighForgetsOrder(kept, kept', CountsIfObserved);
  }

  lemma {:induction false} SkipsAre(kept: seq<ExecutionRecord>)
    ensures SkipCount(kept) + Weigh(kept, CountsIfObserved) == |kept|
  {
    if kept != [] { SkipsAre(kept[..|kept| - 1]); }
  }

  // ---- conservation ------------------------------------------------------

  function Total(windows: seq<Window>, weight: ExecutionRecord -> nat): nat {
    if windows == [] then 0 else Weigh(windows[0].records, weight) + Total(windows[1..], weight)
  }

  function WeighIn(kept: seq<ExecutionRecord>, shas: set<nat>, weight: ExecutionRecord -> nat): nat {
    if kept == [] then 0
    else
      var last := kept[|kept| - 1];
      WeighIn(kept[..|kept| - 1], shas, weight) + if last.commitSha in shas then weight(last) else 0
  }

  lemma {:induction false} WeighInPlus(kept: seq<ExecutionRecord>, shas: set<nat>, sha: nat,
                                       weight: ExecutionRecord -> nat)
    requires sha !in shas
    ensures WeighIn(kept, {sha} + shas, weight) == Weigh(OfSha(kept, sha), weight) + WeighIn(kept, shas, weight)
  {
    if kept != [] {
      var rest, last := kept[..|kept| - 1], kept[|kept| - 1];
      WeighInPlus(rest, shas, sha, weight);
      if last.commitSha == sha {
        assert (OfSha(rest, sha) + [last])[..|OfSha(rest, sha) + [last]| - 1] == OfSha(rest, sha);
      }
    }
  }

  lemma {:induction false} WeighInAll(kept: seq<ExecutionRecord>, shas: set<nat>, weight: ExecutionRecord -> nat)
    ensures (forall r :: r in kept ==> r.commitSha in shas) ==> WeighIn(kept, shas, weight) == Weigh(kept, weight)
    ensures shas == {} ==> WeighIn(kept, shas, weight) == 0
  {
    if kept != [] {
      WeighInAll(kept[..|kept| - 1], shas, weight);
      assert kept[|kept| - 1] in kept && forall r :: r in kept[..|kept| - 1] ==> r in kept;
    }
  }

  function ShasOf(windows: seq<Window>): set<nat> { set w | w in windows :: w.commitSha }

  lemma RestApart(windows: seq<Window>, kept: seq<ExecutionRecord>)
    requires windows != [] && NoRepeats(windows) && forall w :: w in windows ==> w.records == OfSha(kept, w.commitSha)
    ensures NoRepeats(windows[1..]) && forall w :: w in windows[1..] ==> w.records == OfSha(kept, w.commitSha)
    ensures windows[0].commitSha !in ShasOf(windows[1..])
    ensures ShasOf(windows) == {windows[0].commitSha} + ShasOf(windows[1..])
  {
    var w, rest := windows[0], windows[1..];
    assert w in windows && windows == [w] + rest;
    forall v | v in rest ensures v.commitSha != w.commitSha && v in windows {
      var k :| 0 <= k < |rest| && rest[k] == v;
      assert windows[k + 1] == v;
    }
    assert forall v :: v in windows <==> v == w || v in rest;
  }

  lemma {:induction false} TotalIs(windows: seq<Window>, kept: seq<ExecutionRecord>, weight: ExecutionRecord -> nat)
    requires NoRepeats(windows) && forall w :: w in windows ==> w.records == OfSha(kept, w.commitSha)
    ensures Total(windows, weight) == WeighIn(kept, ShasOf(windows), weight)
  {
    if windows == [] {
      assert ShasOf(windows) == {};
      WeighInAll(kept, ShasOf(windows), weight);
    } else {
      var w, rest := windows[0], windows[1..];
      assert w in windows && windows == [w] + rest;
      RestApart(windows, kept);
      TotalIs(rest, kept, weight);
      WeighInPlus(kept, ShasOf(rest), w.commitSha, weight);
    }
  }

  lemma {:induction false} WeighOnes(records: seq<ExecutionRecord>)
    ensures Weigh(records, CountsOne) == |records|
  {
    if records != [] { WeighOnes(records[..|records| - 1]); }
  }

  /** Every record is in exactly one window or excluded as infrastructure, and the observations are
      the records that are neither excluded nor skipped. */
  lemma NothingLost(h: HistoryOf, records: seq<ExecutionRecord>, platform: ExecutionRecord -> bool)
    requires IsHistory(h, records, platform)
    ensures |records| == h.infraExcluded + Total(h.windows, CountsOne)
    ensures Total(h.windows, CountsIfObserved) == |records| - h.infraExcluded - h.skipped
  {
    var kept := Kept(records, platform);
    KeptLengthIs(records, platform);
    TotalIs(h.windows, kept, CountsOne);
    TotalIs(h.windows, kept, CountsIfObserved);
    forall r | r in kept ensures r.commitSha in ShasOf(h.windows) {
      assert r.commitSha in Shas(kept);
      assert Window(r.commitSha, OfSha(kept, r.commitSha)) in h.windows;
    }
    WeighInAll(kept, ShasOf(h.windows), CountsOne);
    WeighInAll(kept, ShasOf(h.windows), CountsIfObserved);
    WeighOnes(kept);
    SkipsAre(kept);
  }
}

/** store/repositories.py: the run store. Each write is tied to its effect on the tables, and
    each read to the tables' contents. */
module Store {
  import opened Models
  import opened Tables
  import opened AliasGraph
  import opened TopK
  import Sorting

  datatype ExecutionRecord = ExecutionRecord(
    executionId: nat, identityId: nat, outcome: Outcome, failureType: Option<string>, failureMessage: Option<string>,
    stackTrace: Option<string>, rerunObserved: bool, runId: string, attempt: nat, commitSha: nat,
    branch: string, shardId: string, startedAt: int)

  // ---- reads as functions of the tables ----------------------------------

  /** One execution joined with its run. */
  function RecordAt(runs: seq<RunRow>, executions: seq<ExecutionRow>, i: nat): ExecutionRecord
    requires i < |executions| && executions[i].runPk < |runs|
  {
    var e := executions[i];
    var run := runs[e.runPk];
    ExecutionRecord(i, e.identityId, e.result.outcome, e.result.failureType, e.result.failureMessage,
                    e.result.stackTrace, e.result.rerunObserved, run.runId, run.attempt, run.commitSha,
                    run.branch, run.shardId, run.startedAt)
  }

  predicate Selects(runs: seq<RunRow>, e: ExecutionRow, keep: set<nat>) {
    e.identityId in keep && e.runPk < |runs|
  }

  /** The joined executions of the identities in `keep` among the first `n` rows. */
  function Rows(runs: seq<RunRow>, executions: seq<ExecutionRow>, keep: set<nat>, n: nat): seq<ExecutionRecord>
    requires n <= |executions|
  {
    if n == 0 then []
    else if Selects(runs, executions[n - 1], keep) then
      Rows(runs, executions, keep, n - 1) + [RecordAt(runs, executions, n - 1)]
    else Rows(runs, executions, keep, n - 1)
  }

  function AllRows(t: Tables, keep: set<nat>): seq<ExecutionRecord> {
    Rows(t.runs, t.executions, keep, |t.executions|)
  }

  /** ORDER BY started_at DESC, id DESC. */
  predicate NewerFirst(a: ExecutionRecord, b: ExecutionRecord) {
    a.startedAt > b.startedAt || (a.startedAt == b.startedAt && a.executionId >= b.executionId)
  }

  function Limited(records: seq<ExecutionRecord>, limit: Option<nat>): seq<ExecutionRecord> {
    if limit.Some? then Take(records, limit.value) else records
  }

  /** The whole merged history of the identities in `keep`, newest first, then cut to the limit. */
  function NewestOf(t: Tables, keep: set<nat>, limit: Option<nat>): seq<ExecutionRecord> {
    Limited(Sorting.SortBy(AllRows(t, keep), NewerFirst), limit)
  }

  // ---- limit pushdown ----------------------------------------------------

  lemma {:induction false} RowsAreRecords(runs: seq<RunRow>, executions: seq<ExecutionRow>, keep: set<nat>, n: nat)
    requires n <= |executions|
    ensures forall x :: x in Rows(runs, executions, keep, n) ==>
      x.executionId < n && Selects(runs, executions[x.executionId], keep)
      && x == RecordAt(runs, executions, x.executionId)
  {
    if n > 0 { RowsAreRecords(runs, executions, keep, n - 1); }
  }

  lemma {:induction false} RowsComplete(runs: seq<RunRow>, executions: seq<ExecutionRow>, keep: set<nat>, n: nat,
                                        i: nat)
    requires i < n <= |executions| && Selects(runs, executions[i], keep)
    ensures RecordAt(runs, executions, i) in Rows(runs, executions, keep, n)
  {
    if i < n - 1 { RowsComplete(runs, executions, keep, n - 1, i); }
  }

  lemma RowsOrderable(t: Tables, keep: set<nat>, records: seq<ExecutionRecord>)
    requires forall x :: x in records ==> x in AllRows(t, keep)
    ensures Orderable(multiset(records), NewerFirst)
  {
    RowsAreRecords(t.runs, t.executions, keep, |t.executions|);
    assert forall x :: x in multiset(records) ==> x in records;
  }

  lemma {:induction false} RowsUnion(runs: seq<RunRow>, executions: seq<ExecutionRow>, a: set<nat>, b: set<nat>, n: nat)
    requires n <= |executions| && a !! b
    ensures multiset(Rows(runs, executions, a + b, n)) ==
            multiset(Rows(runs, executions, a, n)) + multiset(Rows(runs, executions, b, n))
  {
    if n > 0 { RowsUnion(runs, executions, a, b, n - 1); }
  }

  lemma {:induction false} RowsNone(runs: seq<RunRow>, executions: seq<ExecutionRow>, n: nat)
    requires n <= |executions|
    ensures Rows(runs, executions, {}, n) == []
  {
    if n > 0 { RowsNone(runs, executions, n - 1); }
  }

  function Members(ids: seq<nat>): set<nat> { set x | x in ids }

  function PerMember(t: Tables, ids: seq<nat>): (parts: seq<seq<ExecutionRecord>>)
    ensures |parts| == |ids|
  {
    if ids == [] then [] else [AllRows(t, {ids[0]})] + PerMember(t, ids[1..])
  }

  /** Reading member by member sees every execution of the group exactly once. */
  lemma {:induction false} PerMemberIsAll(t: Tables, ids: seq<nat>)
    requires StrictlyAscending(ids)
    ensures multiset(Concat(PerMember(t, ids))) == multiset(AllRows(t, Members(ids)))
  {
    if ids == [] {
      RowsNone(t.runs, t.executions, |t.executions|);
      assert Members(ids) == {};
    } else {
      var rest := ids[1..];
      PerMemberIsAll(t, rest);
      forall x | x in rest ensures x != ids[0] {
        var k :| 0 <= k < |rest| && rest[k] == x;
        assert ids[k + 1] == x;
      }
      assert Members(ids) == {ids[0]} + Members(rest);
      RowsUnion(t.runs, t.executions, {ids[0]}, Members(rest), |t.executions|);
    }
  }

  lemma {:induction false} BestOfEachMember(t: Tables, ids: seq<nat>, k: nat)
    ensures BestOfEach(PerMember(t, ids), NewerFirst, k) == PerMemberNewest(t, ids, Some(k))
  {
    if ids != [] {
      BestOfEachMember(t, ids[1..], k);
      assert PerMember(t, ids)[1..] == PerMember(t, ids[1..]);
    }
  }

  function PerMemberNewest(t: Tables, ids: seq<nat>, limit: Option<nat>): seq<seq<ExecutionRecord>> {
    if ids == [] then [] else [NewestOf(t, {ids[0]}, limit)] + PerMemberNewest(t, ids[1..], limit)
  }

  lemma {:induction false} SortedPartsAreAll(t: Tables, ids: seq<nat>)
    ensures multiset(Concat(PerMemberNewest(t, ids, None))) == multiset(Concat(PerMember(t, ids)))
  {
    if ids != [] {
      SortedPartsAreAll(t, ids[1..]);
      Sorting.SortElements(AllRows(t, {ids[0]}), NewerFirst);
    }
  }

  /** Pushing the limit into each member's query gives exactly the newest records of the merged history. */
  lemma GroupLimitPushdown(t: Tables, ids: seq<nat>, limit: Option<nat>)
    requires StrictlyAscending(ids)
    ensures Limited(Sorting.SortBy(Concat(PerMemberNewest(t, ids, limit)), NewerFirst), limit) ==
      NewestOf(t, Members(ids), limit)
  {
    var whole := AllRows(t, Members(ids));
    var parts := PerMember(t, ids);
    PerMemberIsAll(t, ids);
    Sorting.SameElements(whole, Concat(parts));
    RowsOrderable(t, Members(ids), Concat(parts));
    RowsOrderable(t, Members(ids), whole);
    Sorting.SortByForgetsOrder(Concat(parts), whole, NewerFirst);
    if limit.Some? {
      LimitPushdown(parts, NewerFirst, limit.value);
      BestOfEachMember(t, ids, limit.value);
    } else {
      SortedPartsAreAll(t, ids);
      Sorting.SortByForgetsOrder(Concat(parts), Concat(PerMemberNewest(t, ids, None)), NewerFirst);
    }
  }

  /** The connected component of an identity. */
  ghost function Component(aliases: seq<AliasRow>, id: nat): set<nat> {
    set x | x in Universe(aliases, id) && Connected(aliases, id, x)
  }

  /** Every execution of a logical test, newest first. */
  ghost function MergedHistory(t: Tables, id: nat): seq<ExecutionRecord> {
    NewestOf(t, Component(t.aliases, id), None)
  }

  lemma ComponentIsConnected(aliases: seq<AliasRow>, id: nat)
    ensures forall x :: x in Component(aliases, id) <==> Connected(aliases, id, x)
  {
    var all := Universe(aliases, id);
    assert Closed(aliases, all);
    forall x | Connected(aliases, id, x) ensures x in all {
      var p :| WalkBetween(aliases, p, id, x);
      ClosedContains(aliases, all, p, id, x);
    }
  }

  // ---- identities before a run -------------------------------------------

  /** Whether execution `e` belongs to a run that started strictly before `runPk`. */
  predicate Earlier(runs: seq<RunRow>, e: ExecutionRow, runPk: nat) {
    e.runPk < |runs| && runPk < |runs| && runs[e.runPk].startedAt < runs[runPk].startedAt
  }

  predicate SeenBefore(runs: seq<RunRow>, executions: seq<ExecutionRow>, id: nat, runPk: nat) {
    exists e :: e in executions && e.identityId == id && Earlier(runs, e, runPk)
  }

  /** Ids below `n` whose identity has an execution in an earlier run. */
  function BeforeIds(runs: seq<RunRow>, executions: seq<ExecutionRow>, runPk: nat, n: nat): (ids: seq<nat>) {
    if n == 0 then []
    else if SeenBefore(runs, executions, n - 1, runPk) then BeforeIds(runs, executions, runPk, n - 1) + [n - 1]
    else BeforeIds(runs, executions, runPk, n - 1)
  }

  lemma {:induction false} BeforeIdsAre(runs: seq<RunRow>, executions: seq<ExecutionRow>, runPk: nat, n: nat)
    ensures StrictlyAscending(BeforeIds(runs, executions, runPk, n))
    ensures forall id: nat :: id in BeforeIds(runs, executions, runPk, n) <==>
      id < n && SeenBefore(runs, executions, id, runPk)
  {
    if n > 0 {
      BeforeIdsAre(runs, executions, runPk, n - 1);
      var ids := BeforeIds(runs, executions, runPk, n - 1);
      assert forall k :: 0 <= k < |ids| ==> ids[k] in ids;
    }
  }

  /** MAX(started_at) over the identity's executions in earlier runs, if there are any. */
  function LastStarted(runs: seq<RunRow>, executions: seq<ExecutionRow>, id: nat, runPk: nat): Option<int> {
    if executions == [] then None
    else
      var e, rest := executions[0], LastStarted(runs, executions[1..], id, runPk);
      if e.identityId == id && Earlier(runs, e, runPk) then
        var at := runs[e.runPk].startedAt;
        if rest.Some? && at <= rest.value then rest else Some(at)
      else rest
  }

  predicate LaterFirst(runs: seq<RunRow>, executions: seq<ExecutionRow>, runPk: nat, a: nat, b: nat) {
    var x, y := LastStarted(runs, executions, a, runPk), LastStarted(runs, executions, b, runPk);
    if x.Some? && y.Some? && x.value != y.value then x.value > y.value else a <= b
  }

  /** GROUP BY i.id ORDER BY last_started DESC, i.id, over `n` identity rows. */
  function IdentitiesBefore(runs: seq<RunRow>, executions: seq<ExecutionRow>, runPk: nat, n: nat): seq<nat> {
    Sorting.SortBy(BeforeIds(runs, executions, runPk, n), (a, b) => LaterFirst(runs, executions, runPk, a, b))
  }

  ghost predicate StartedIn(runs: seq<RunRow>, executions: seq<ExecutionRow>, id: nat, runPk: nat, at: int) {
    exists e :: e in executions && e.identityId == id && Earlier(runs, e, runPk) && runs[e.runPk].startedAt == at
  }

  ghost predicate NotAfter(runs: seq<RunRow>, executions: seq<ExecutionRow>, id: nat, runPk: nat, at: int) {
    forall e :: e in executions && e.identityId == id && Earlier(runs, e, runPk) ==> runs[e.runPk].startedAt <= at
  }

  /** It is the latest such start. */
  lemma {:induction false} LastStartedIs(runs: seq<RunRow>, executions: seq<ExecutionRow>, id: nat, runPk: nat)
    ensures LastStarted(runs, executions, id, runPk).Some? <==> SeenBefore(runs, executions, id, runPk)
    ensures LastStarted(runs, executions, id, runPk).Some? ==>
      && StartedIn(runs, executions, id, runPk, LastStarted(runs, executions, id, runPk).value)
      && NotAfter(runs, executions, id, runPk, LastStarted(runs, executions, id, runPk).value)
  {
    if executions != [] {
      var rest := executions[1..];
      LastStartedIs(runs, rest, id, runPk);
      assert executions[0] in executions && forall e :: e in executions <==> e == executions[0] || e in rest;
    }
  }

  ghost predicate ByLastStart(runs: seq<RunRow>, executions: seq<ExecutionRow>, runPk: nat, ids: seq<nat>) {
    forall i, j :: 0 <= i < j < |ids| ==> StartsLater(runs, executions, runPk, ids[i], ids[j])
  }

  /** The last earlier start of `a` is later than that of `b`, or the same and `a` comes before `b`. */
  predicate StartsLater(runs: seq<RunRow>, executions: seq<ExecutionRow>, runPk: nat, a: nat, b: nat) {
    var x, y := LastStarted(runs, executions, a, runPk), LastStarted(runs, executions, b, runPk);
    x.Some? && y.Some? && x.value >= y.value && (x.value == y.value ==> a <= b)
  }

  lemma {:induction false} SortsByLastStart(runs: seq<RunRow>, executions: seq<ExecutionRow>, runPk: nat, ids: seq<nat>,
                                            le: (nat, nat) -> bool)
    requires forall a, b :: le(a, b) == LaterFirst(runs, executions, runPk, a, b)
    requires forall id :: id in ids ==> LastStarted(runs, executions, id, runPk).Some?
    ensures ByLastStart(runs, executions, runPk, Sorting.SortBy(ids, le))
  {
    assert forall id :: id in multiset(ids) ==> id in ids;
    Sorting.SortBySorts(ids, le);
    var sorted := Sorting.SortBy(ids, le);
    Sorting.SortElements(ids, le);
    Sorting.SameElements(sorted, ids);
    forall i, j | 0 <= i < j < |sorted| ensures StartsLater(runs, executions, runPk, sorted[i], sorted[j]) {
      Sorting.SortedIndex(sorted, le, i, j);
      assert sorted[i] in sorted && sorted[j] in sorted;
    }
  }

  /** The query returns each earlier identity exactly once, the most recently started first. */
  lemma {:induction false} IdentitiesBeforeAre(runs: seq<RunRow>, executions: seq<ExecutionRow>, runPk: nat, n: nat)
    ensures Sorting.NoRepeats(IdentitiesBefore(runs, executions, runPk, n))
    ensures forall id: nat :: id in IdentitiesBefore(runs, executions, runPk, n) <==>
      id < n && SeenBefore(runs, executions, id, runPk)
    ensures ByLastStart(runs, executions, runPk, IdentitiesBefore(runs, executions, runPk, n))
  {
    var ids := BeforeIds(runs, executions, runPk, n);
    BeforeIdsAre(runs, executions, runPk, n);
    forall id | id in ids ensures LastStarted(runs, executions, id, runPk).Some? {
      LastStartedIs(runs, executions, id, runPk);
    }
    SortsByLastStart(runs, executions, runPk, ids, (a: nat, b: nat) => LaterFirst(runs, executions, runPk, a, b));
    Sorting.SortElements(ids, (a, b) => LaterFirst(runs, executions, runPk, a, b));
    Sorting.SameElements(IdentitiesBefore(runs, executions, runPk, n), ids);
    Sorting.ReorderWithoutRepeats(ids, IdentitiesBefore(runs, executions, runPk, n));
  }

  /** The identities the run executed. */
  function CurrentIds(executions: seq<ExecutionRow>, runPk: nat): set<nat> {
    set e | e in executions && e.runPk == runPk :: e.identityId
  }

  // ---- the store ---------------------------------------------------------

  class RunStore {
    var runs: seq<RunRow>
    var identities: seq<TestIdentity>
    var executions: seq<ExecutionRow>
    var aliases: seq<AliasRow>
    var diffFiles: map<DiffKey, FileChange>

    function View(): Tables
      reads this
    {
      Tables(runs, identities, executions, aliases, diffFiles)
    }

    constructor ()
      ensures View() == Empty
    {
      runs, identities, executions, aliases, diffFiles := [], [], [], [], map[];
    }

    method RecordRun(metadata: RunMetadata) returns (runPk: nat)
      modifies this`runs
      ensures View() == AddRun(old(View()), metadata)
      ensures runPk == RunPk(old(View()), metadata)
      ensures runPk < |runs| && runs[runPk].runId == metadata.runId && runs[runPk].attempt == metadata.attempt
      ensures runs[runPk].shardId == match metadata.shardId case None => "" case Some(shard) => shard
    {
      var row := MakeRun(metadata);
      runPk := FindRun(runs, row);
      if runPk == |runs| {
        runs := runs + [row];
      }
    }

    method UpsertIdentity(identity: TestIdentity) returns (id: nat, created: bool)
      modifies this`identities
      ensures identities == Upsert(old(identities), identity)
      ensures id == FindIdentity(old(identities), identity.fingerprint)
      ensures created <==> !Present(old(identities), identity.fingerprint)
      ensures id < |identities| && identities[id].fingerprint == identity.fingerprint
    {
      id := FindIdentity(identities, identity.fingerprint);
      if id < |identities| {
        identities := identities[id := Refresh(identities[id], identity.filePath)];
        created := false;
      } else {
        identities := identities + [identity];
        created := true;
      }
    }

    method RecordExecutions(runPk: nat, rows: seq<(nat, TestCaseResult)>) returns (inserted: nat, skipped: nat)
      modifies this`executions
      ensures executions == AddExecutions(old(executions), ExecutionRows(runPk, rows))
      ensures inserted == |executions| - |old(executions)|
      ensures inserted + skipped == |rows|
    {
      inserted := 0;
      ghost var all := ExecutionRows(runPk, rows);
      for k := 0 to |rows|
        invariant executions == AddExecutions(old(executions), all[..k])
        invariant inserted == |executions| - |old(executions)|
      {
        var row := ExecutionRow(runPk, rows[k].0, rows[k].1);
        assert all[..k + 1][..k] == all[..k] && all[k] == row;
        if !HasExecution(executions, row) {
          executions := executions + [row];
          inserted := inserted + 1;
        }
      }
      assert all[..|rows|] == all;
      skipped := |rows| - inserted;
    }

    method RecordDiff(runPk: nat, changes: seq<FileChange>) returns (files: nat)
      modifies this`diffFiles
      ensures diffFiles == AddFiles(old(diffFiles), runPk, changes)
      ensures files == |changes|
    {
      for k := 0 to |changes|
        invariant diffFiles == AddFiles(old(diffFiles), runPk, changes[..k])
      {
        assert changes[..k + 1][..k] == changes[..k];
        var key := DiffKey(runPk, changes[k].path);
        if key in diffFiles {
          continue;
        }
        diffFiles := diffFiles[key := changes[k]];
      }
      assert changes[..|changes|] == changes;
      files := |changes|;
    }

    /** Reports an update as well as an insertion: a row was written in both cases. */
    method RecordAlias(oldId: nat, newId: nat, similarity: real, certain: bool, runPk: nat) returns (written: bool)
      modifies this`aliases
      ensures aliases == AddAlias(old(aliases), AliasRow(oldId, newId, similarity, certain, runPk))
      ensures written
    {
      var row := AliasRow(oldId, newId, similarity, certain, runPk);
      var i := FindAlias(aliases, row);
      if i < |aliases| {
        var stored := aliases[i];
        aliases := aliases[i := stored.(
          similarity := if stored.similarity < similarity then similarity else stored.similarity,
          certain := stored.certain || certain)];
      } else {
        aliases := aliases + [row];
      }
      written := true;
    }

    method IdentityGroup(id: nat) returns (ids: seq<nat>, uncertain: bool)
      ensures IsGroup(aliases, id, ids, uncertain)
    {
      var seen, frontier := {id}, [id];
      uncertain := false;
      ghost var done: set<nat> := {};
      ConnectedSelf(aliases, id);
      while frontier != []
        invariant Searching(aliases, id, seen, done, frontier, uncertain)
        decreases Universe(aliases, id) - seen, |frontier|
      {
        var current := frontier[|frontier| - 1];
        var rows := RowsTouching(aliases, current);
        SplitPop(seen, done, frontier);
        ghost var before, waiting, doubt := seen, frontier, uncertain;
        var doubtful;
        seen, frontier, doubtful := Expand(rows, seen, frontier[..|frontier| - 1], done + {current});
        uncertain := uncertain || doubtful;
        SearchStep(aliases, id, before, done, waiting, doubt, rows, seen, frontier, doubtful);
        done := done + {current};
        SearchShrinks(aliases, id, before, seen);
      }
      SearchEnd(aliases, id, seen, done, uncertain);
      ids := SortedSet(seen);
    }

    /** The per-identity query, with its own LIMIT. */
    function ExecutionsForIdentity(id: nat, limit: Option<nat>): seq<ExecutionRecord>
      reads this
    {
      NewestOf(View(), {id}, limit)
    }

    method ExecutionsForGroup(id: nat, limit: Option<nat>) returns (records: seq<ExecutionRecord>)
      ensures records == NewestOf(View(), Component(aliases, id), limit)
    {
      var ids, _ := IdentityGroup(id);
      records := [];
      for k := 0 to |ids|
        invariant records == Concat(PerMemberNewest(View(), ids[..k], limit))
      {
        var more := ExecutionsForIdentity(ids[k], limit);
        assert ids[..k + 1] == ids[..k] + [ids[k]];
        PerMemberSnoc(View(), ids[..k], ids[k], limit);
        records := records + more;
      }
      assert ids[..|ids|] == ids;
      records := Sorting.SortBy(records, NewerFirst);
      GroupLimitPushdown(View(), ids, limit);
      ComponentIsConnected(aliases, id);
      assert Members(ids) == Component(aliases, id);
      if limit.Some? {
        records := Take(records, limit.value);
      }
    }

    /** Newest-first pass flags, skips left out after the limit is applied. */
    method RecentOutcomes(id: nat, limit: nat) returns (flags: seq<bool>)
      ensures flags == Flags(NewestOf(View(), Component(aliases, id), Some(limit)))
    {
      var records := ExecutionsForGroup(id, Some(limit));
      flags := Flags(records);
    }
  }

  function Flags(records: seq<ExecutionRecord>): seq<bool> {
    if records == [] then []
    else (if records[0].outcome.CountsAsObservation() then [records[0].outcome.Pass?] else []) + Flags(records[1..])
  }

  function ExecutionRows(runPk: nat, rows: seq<(nat, TestCaseResult)>): (r: seq<ExecutionRow>)
    ensures |r| == |rows|
  {
    seq(|rows|, k requires 0 <= k < |rows| => ExecutionRow(runPk, rows[k].0, rows[k].1))
  }

  lemma {:induction false} PerMemberSnoc(t: Tables, ids: seq<nat>, id: nat, limit: Option<nat>)
    ensures Concat(PerMemberNewest(t, ids + [id], limit)) ==
      Concat(PerMemberNewest(t, ids, limit)) + NewestOf(t, {id}, limit)
  {
    if ids == [] {
      assert ids + [id] == [id];
    } else {
      assert (ids + [id])[1..] == ids[1..] + [id];
      PerMemberSnoc(t, ids[1..], id, limit);
    }
  }

  lemma SplitPop(seen: set<nat>, done: set<nat>, frontier: seq<nat>)
    requires frontier != [] && Split(seen, done, frontier)
    ensures Split(seen, done + {frontier[|frontier| - 1]}, frontier[..|frontier| - 1])
  {
    assert frontier[|frontier| - 1] in frontier;
    forall x | x in seen ensures x in done + {frontier[|frontier| - 1]} || x in frontier[..|frontier| - 1] {
      if x in frontier {
        var k :| 0 <= k < |frontier| && frontier[k] == x;
        if k < |frontier| - 1 { assert frontier[..|frontier| - 1][k] == x; }
      }
    }
  }

  lemma SearchShrinks(aliases: seq<AliasRow>, id: nat, before: set<nat>, after: set<nat>)
    requires before <= after <= Universe(aliases, id)
    ensures before == after || Universe(aliases, id) - after < Universe(aliases, id) - before
  {
    if before != after {
      var x :| x in after && x !in before;
      assert x in Universe(aliases, id) - before;
    }
  }
}

/** What an ingest leaves in the store, said of the batch itself: its run, its executions, its identities, its renames
    and its diff. */
module StoredFacts {
  import opened Models
  import opened Tables
  import opened AliasGraph
  import opened Renames
  import opened Store
  import opened Reconcile
  import opened Ingest
  import Alias
  import Picking
  import Sorting
  import TopK

  // ---- runs --------------------------------------------------------------

  /** Absent is stored as the empty text. */
  function Stored(o: Option<string>): string { match o case None => "" case Some(text) => text }

  /** The run row has the run id, attempt and shard of the metadata. */
  predicate KeyedBy(r: RunRow, m: RunMetadata) {
    r.runId == m.runId && r.attempt == m.attempt && r.shardId == Stored(m.shardId)
  }

  predicate DescribedBy(r: RunRow, m: RunMetadata) {
    && KeyedBy(r, m) && r.commitSha == m.commitSha && r.startedAt == m.startedAt
    && r.branch == Stored(m.branch) && r.workerId == Stored(m.workerId)
  }

  /** No run with that run id, attempt and shard is stored. */
  ghost predicate NewRun(t: Tables, m: RunMetadata) { forall r :: r in t.runs ==> !KeyedBy(r, m) }

  lemma {:induction false} RunIs(t: Tables, m: RunMetadata)
    ensures var after := AddRun(t, m);
      && RunPk(t, m) == RunPk(after, m) < |after.runs| && KeyedBy(after.runs[RunPk(t, m)], m)
      && t.runs <= after.runs
    ensures NewRun(t, m) ==> RunPk(t, m) == |t.runs| && |AddRun(t, m).runs| == |t.runs| + 1
    ensures NewRun(t, m) ==> DescribedBy(AddRun(t, m).runs[|t.runs|], m)
    ensures !NewRun(t, m) ==> AddRun(t, m) == t
  {
    var row, after := MakeRun(m), AddRun(t, m);
    var i := FindRun(t.runs, row);
    assert NewRun(t, m) <==> i == |t.runs| by {
      if i < |t.runs| { assert t.runs[i] in t.runs; }
    }
    var j := FindRun(after.runs, row);
    assert SameRun(after.runs[i], row);
    if i == |t.runs| { assert forall k :: 0 <= k < i ==> after.runs[k] == t.runs[k]; }
  }

  /** Two metadata are given one row exactly when run id, attempt and shard agree, an absent shard being "". */
  lemma {:induction false} RunsAreKeyed(t: Tables, m: RunMetadata, m': RunMetadata)
    requires UniqueRuns(t.runs)
    ensures var both := AddRun(AddRun(t, m), m');
      RunPk(both, m) == RunPk(both, m') <==>
      m.runId == m'.runId && m.attempt == m'.attempt && Stored(m.shardId) == Stored(m'.shardId)
  {
    var one := AddRun(t, m);
    var both := AddRun(one, m');
    AddRunFacts(t, m);
    AddRunFacts(one, m');
    RunIs(one, m');
    RunIs(t, m);
    assert both.runs[RunPk(one, m)] == one.runs[RunPk(one, m)];
    RunIs(both, m);
    RunIs(both, m');
    assert !NewRun(both, m) by { assert both.runs[RunPk(one, m)] in both.runs; }
    assert !NewRun(both, m') by { assert both.runs[RunPk(one, m')] in both.runs; }
    var i, j := RunPk(both, m), RunPk(both, m');
    if m.runId == m'.runId && m.attempt == m'.attempt && Stored(m.shardId) == Stored(m'.shardId) && i != j {
      assert SameRun(both.runs[i], both.runs[j]);
    }
  }

  // ---- executions --------------------------------------------------------

  /** The execution is that of case `k`, under the case's identity and the batch's run. */
  predicate Carries(t: Tables, e: ExecutionRow, b: Batch, k: nat)
    requires k < |b.cases|
  {
    && e.identityId < |t.identities| && t.identities[e.identityId].fingerprint == b.cases[k].identity.fingerprint
    && e.runPk < |t.runs| && KeyedBy(t.runs[e.runPk], b.metadata)
  }

  ghost predicate CaseStored(t: Tables, b: Batch, k: nat)
    requires k < |b.cases|
  {
    exists e :: e in t.executions && Carries(t, e, b, k)
  }

  /** What is written for the cases, row by row. */
  lemma {:induction false} WrittenRows(t: Tables, b: Batch, k: nat)
    requires Valid(t) && k < |b.cases|
    ensures var p := Persisted(t, b);
      var row := RowsOf(p.identities, RunPk(t, b.metadata), b.cases)[k];
      Carries(p, row, b, k) && row.runPk == RunPk(t, b.metadata) && row.result == b.cases[k].result
  {
    var p, ids := Persisted(t, b), IdentitiesOf(b.cases);
    RunIs(t, b.metadata);
    UpsertAllPresent(t.identities, ids);
    assert ids[k] in ids;
    var i :| 0 <= i < |p.identities| && p.identities[i].fingerprint == ids[k].fingerprint;
  }

  /** After an ingest every case of the batch has an execution, under its own identity and the batch's run. */
  lemma {:induction false} EveryCaseIsStored(t: Tables, b: Batch, config: IdentityConfig, t': Tables, pairs: seq<Pair>,
                                             k: nat)
    requires Valid(t) && Ingested(t, b, config, t', pairs) && k < |b.cases|
    ensures CaseStored(t', b, k)
  {
    var p := Persisted(t, b);
    var rows := RowsOf(p.identities, RunPk(t, b.metadata), b.cases);
    WrittenRows(t, b, k);
    AddExecutionsHas(t.executions, rows);
    assert rows[k] in rows && HasExecution(p.executions, rows[k]);
    var i :| 0 <= i < |p.executions| && SameExecution(p.executions[i], rows[k]);
    assert p.executions[i] in t'.executions && Carries(t', p.executions[i], b, k);
  }

  /** The first row of a key is stored, unless the key is taken. */
  lemma {:induction false} FirstIsAdded(executions: seq<ExecutionRow>, rows: seq<ExecutionRow>, k: nat)
    requires k < |rows| && !HasExecution(executions, rows[k])
    requires forall j :: 0 <= j < k ==> !SameExecution(rows[j], rows[k])
    ensures rows[k] in AddExecutions(executions, rows)
    decreases |rows|
  {
    var n := |rows| - 1;
    var before := AddExecutions(executions, rows[..n]);
    if k < n {
      FirstIsAdded(executions, rows[..n], k);
      assert AddExecutions(executions, rows) == AddExecution(before, rows[n]);
    } else {
      NotAdded(executions, rows[..n], rows[k]);
    }
  }

  lemma {:induction false} NotAdded(executions: seq<ExecutionRow>, rows: seq<ExecutionRow>, row: ExecutionRow)
    requires !HasExecution(executions, row) && forall j :: 0 <= j < |rows| ==> !SameExecution(rows[j], row)
    ensures !HasExecution(AddExecutions(executions, rows), row)
    decreases |rows|
  {
    if rows != [] { NotAdded(executions, rows[..|rows| - 1], row); }
  }

  /** Case `k` is the first of its fingerprint in the batch. */
  ghost predicate FirstCase(b: Batch, k: nat) {
    && k < |b.cases|
    && forall j :: 0 <= j < k ==> b.cases[j].identity.fingerprint != b.cases[k].identity.fingerprint
  }

  /** The record says of its execution what the case and the metadata say. */
  predicate Reports(r: ExecutionRecord, c: TestCaseResult, m: RunMetadata) {
    && r.outcome == c.outcome && r.failureType == c.failureType && r.failureMessage == c.failureMessage
    && r.stackTrace == c.stackTrace && r.rerunObserved == c.rerunObserved
    && r.runId == m.runId && r.attempt == m.attempt && r.commitSha == m.commitSha && r.startedAt == m.startedAt
    && r.branch == Stored(m.branch) && r.shardId == Stored(m.shardId)
  }

  ghost predicate Reported(t: Tables, id: nat, c: TestCaseResult, m: RunMetadata) {
    exists r :: r in NewestOf(t, {id}, None) && r.identityId == id && Reports(r, c, m)
  }

  lemma {:induction false} StoredIsReported(t: Tables, e: ExecutionRow, m: RunMetadata)
    requires e in t.executions && e.runPk < |t.runs| && DescribedBy(t.runs[e.runPk], m)
    ensures Reported(t, e.identityId, e.result, m)
  {
    var i :| 0 <= i < |t.executions| && t.executions[i] == e;
    var r := RecordAt(t.runs, t.executions, i);
    RowsComplete(t.runs, t.executions, {e.identityId}, |t.executions|, i);
    var rows := AllRows(t, {e.identityId});
    Sorting.SortElements(rows, NewerFirst);
    Sorting.SameElements(NewestOf(t, {e.identityId}, None), rows);
    assert r in NewestOf(t, {e.identityId}, None) && Reports(r, e.result, m);
  }

  /** A run that is new keeps its commit, branch and start, and each test's history now has the first result the batch
      gives for it, as given. */
  lemma {:induction false} NewRunIsReported(t: Tables, b: Batch, config: IdentityConfig, t': Tables, pairs: seq<Pair>,
                                            k: nat) returns (id: nat)
    requires Valid(t) && Ingested(t, b, config, t', pairs) && FirstCase(b, k) && NewRun(t, b.metadata)
    ensures id < |t'.identities| && t'.identities[id].fingerprint == b.cases[k].identity.fingerprint
    ensures |t'.runs| == |t.runs| + 1 && DescribedBy(t'.runs[|t.runs|], b.metadata)
    ensures Reported(t', id, b.cases[k].result, b.metadata)
  {
    var p, runPk := Persisted(t, b), RunPk(t, b.metadata);
    var rows := RowsOf(p.identities, runPk, b.cases);
    RunIs(t, b.metadata);
    WrittenRows(t, b, k);
    id := rows[k].identityId;
    forall j | 0 <= j < k ensures !SameExecution(rows[j], rows[k]) { WrittenRows(t, b, j); }
    assert !HasExecution(t.executions, rows[k]) by {
      forall i | 0 <= i < |t.executions| ensures !SameExecution(t.executions[i], rows[k]) {
        assert t.executions[i] in t.executions;
      }
    }
    FirstIsAdded(t.executions, rows, k);
    StoredIsReported(t', rows[k], b.metadata);
  }

  // ---- identities --------------------------------------------------------

  /** Seen again, a test keeps its row and takes the new path if there is one; seen first, it gets a row as it is. */
  lemma {:induction false} SeenAgain(identities: seq<TestIdentity>, identity: TestIdentity, k: nat)
    requires UniqueFingerprints(identities)
    ensures k < |identities| && identities[k].fingerprint == identity.fingerprint ==>
      |Upsert(identities, identity)| == |identities| &&
      Upsert(identities, identity)[k] ==
        if identity.filePath.Some? then identities[k].(filePath := identity.filePath) else identities[k]
    ensures k < |identities| && identities[k].fingerprint != identity.fingerprint ==>
      Upsert(identities, identity)[k] == identities[k]
    ensures (forall i :: 0 <= i < |identities| ==> identities[i].fingerprint != identity.fingerprint) ==>
      Upsert(identities, identity) == identities + [identity]
  {
  }

  // ---- renames -----------------------------------------------------------

  predicate BetweenEnds(a: AliasRow, b: AliasRow) { a.oldId == b.oldId && a.newId == b.newId }

  /** A known edge is only ever strengthened, exactly by what is new; an unknown one is added as it is. */
  lemma {:induction false} EdgeAgain(aliases: seq<AliasRow>, row: AliasRow, k: nat)
    requires UniqueAliases(aliases)
    ensures k < |aliases| && BetweenEnds(aliases[k], row) ==>
      |AddAlias(aliases, row)| == |aliases| && (var now := AddAlias(aliases, row)[k];
        && BetweenEnds(now, row) && now.observedRun == aliases[k].observedRun
        && (now.certain <==> aliases[k].certain || row.certain)
        && now.similarity >= aliases[k].similarity && now.similarity >= row.similarity
        && (now.similarity == aliases[k].similarity || now.similarity == row.similarity))
    ensures k < |aliases| && !BetweenEnds(aliases[k], row) ==> AddAlias(aliases, row)[k] == aliases[k]
    ensures (forall i :: 0 <= i < |aliases| ==> !BetweenEnds(aliases[i], row)) ==>
      AddAlias(aliases, row) == aliases + [row]
  {
    if k < |aliases| && BetweenEnds(aliases[k], row) {
      var i := FindAlias(aliases, row);
      if i < k { assert SameAlias(aliases[i], aliases[k]); }
    }
  }

  ghost predicate AnyBetween(rows: seq<AliasRow>, row: AliasRow) {
    exists a :: a in rows && BetweenEnds(a, row)
  }

  ghost predicate AnyCertain(rows: seq<AliasRow>, row: AliasRow) {
    exists a :: a in rows && BetweenEnds(a, row) && a.certain
  }

  lemma {:induction false} AddCertain(aliases: seq<AliasRow>, row: AliasRow, ends: AliasRow)
    requires UniqueAliases(aliases)
    ensures AnyCertain(AddAlias(aliases, row), ends) <==>
      AnyCertain(aliases, ends) || (BetweenEnds(row, ends) && row.certain)
  {
    var after, i := AddAlias(aliases, row), FindAlias(aliases, row);
    forall k: nat | k < |aliases| ensures k != i ==> after[k] == aliases[k] { EdgeAgain(aliases, row, k); }
    if i < |aliases| { EdgeAgain(aliases, row, i); }
    if AnyCertain(after, ends) {
      var a :| a in after && BetweenEnds(a, ends) && a.certain;
      var k :| 0 <= k < |after| && after[k] == a;
      if k != i { assert a in aliases; } else if i < |aliases| { assert aliases[i] in aliases; }
    }
    if AnyCertain(aliases, ends) {
      var a :| a in aliases && BetweenEnds(a, ends) && a.certain;
      var k :| 0 <= k < |aliases| && aliases[k] == a;
      assert after[k] in after && BetweenEnds(after[k], ends) && after[k].certain;
    }
    if BetweenEnds(row, ends) && row.certain { assert after[i] in after; }
  }

  lemma {:induction false} AddAllCertain(aliases: seq<AliasRow>, rows: seq<AliasRow>, ends: AliasRow)
    requires UniqueAliases(aliases)
    ensures AnyCertain(AddAliases(aliases, rows), ends) <==> AnyCertain(aliases, ends) || AnyCertain(rows, ends)
    decreases |rows|
  {
    if rows != [] {
      var n := |rows| - 1;
      AddAllCertain(aliases, rows[..n], ends);
      AddAliasesGrow(aliases, rows[..n]);
      AddCertain(AddAliases(aliases, rows[..n]), rows[n], ends);
      assert rows == rows[..n] + [rows[n]];
    }
  }

  /** The two rows of an accepted pair. */
  predicate PairEnds(t: Tables, p: Pair, row: AliasRow) {
    && row.oldId < |t.identities| && t.identities[row.oldId].fingerprint == p.before.fingerprint
    && row.newId < |t.identities| && t.identities[row.newId].fingerprint == p.after.fingerprint
  }

  lemma {:induction false} PairRow(t: Tables, runPk: nat, config: IdentityConfig, pairs: seq<Pair>, k: nat)
    requires Valid(t) && k < |pairs|
    requires IsOutcome(Scored(Disappeared(t, runPk), Appeared(t, runPk), config), pairs)
    ensures var row := RowsFor(t.identities, Alias.Candidates(pairs, config), runPk)[k];
      && PairEnds(t, pairs[k], row)
      && (row.certain <==> pairs[k].distance <= config.aliasCertainDistance)
      && row.similarity == 1.0 - pairs[k].distance && row.observedRun == runPk
  {
    assert pairs[k] in pairs;
    AcceptedRespectsRules(Disappeared(t, runPk), Appeared(t, runPk), config, pairs[k]);
    RowOfMember(t.identities, DisappearedIds(t, runPk), pairs[k].before);
    RowOfMember(t.identities, AppearedIds(t, runPk), pairs[k].after);
  }

  ghost predicate CertainPair(t: Tables, pairs: seq<Pair>, row: AliasRow, config: IdentityConfig) {
    exists p :: p in pairs && PairEnds(t, p, row) && p.distance <= config.aliasCertainDistance
  }

  lemma {:induction false} CertainRowIsPair(t: Tables, runPk: nat, config: IdentityConfig, pairs: seq<Pair>,
                                            row: AliasRow)
    requires Valid(t) && IsOutcome(Scored(Disappeared(t, runPk), Appeared(t, runPk), config), pairs)
    requires AnyCertain(RowsFor(t.identities, Alias.Candidates(pairs, config), runPk), row)
    ensures CertainPair(t, pairs, row, config)
  {
    var rows := RowsFor(t.identities, Alias.Candidates(pairs, config), runPk);
    var a :| a in rows && BetweenEnds(a, row) && a.certain;
    var k :| 0 <= k < |rows| && rows[k] == a;
    PairRow(t, runPk, config, pairs, k);
    assert pairs[k] in pairs;
  }

  lemma {:induction false} PairIsCertainRow(t: Tables, runPk: nat, config: IdentityConfig, pairs: seq<Pair>,
                                            row: AliasRow)
    requires Valid(t) && IsOutcome(Scored(Disappeared(t, runPk), Appeared(t, runPk), config), pairs)
    requires row.oldId < |t.identities| && row.newId < |t.identities| && CertainPair(t, pairs, row, config)
    ensures AnyCertain(RowsFor(t.identities, Alias.Candidates(pairs, config), runPk), row)
  {
    var rows := RowsFor(t.identities, Alias.Candidates(pairs, config), runPk);
    var p :| p in pairs && PairEnds(t, p, row) && p.distance <= config.aliasCertainDistance;
    var k :| 0 <= k < |pairs| && pairs[k] == p;
    PairRow(t, runPk, config, pairs, k);
    OneRow(t.identities, rows[k].oldId, row.oldId);
    OneRow(t.identities, rows[k].newId, row.newId);
    assert rows[k] in rows;
  }

  lemma {:induction false} OneRow(identities: seq<TestIdentity>, a: nat, b: nat)
    requires UniqueFingerprints(identities) && a < |identities| && b < |identities|
    requires identities[a].fingerprint == identities[b].fingerprint
    ensures a == b
  {
  }

  /** An edge is certain exactly when it was before, or an accepted pair within the certain distance says so. */
  lemma {:induction false} CertainIff(t: Tables, runPk: nat, config: IdentityConfig, aliases: seq<AliasRow>,
                                      pairs: seq<Pair>, row: AliasRow)
    requires Valid(t) && Reconciled(t, runPk, config, aliases, pairs)
    requires row.oldId < |t.identities| && row.newId < |t.identities|
    ensures AnyCertain(aliases, row) <==> AnyCertain(t.aliases, row) || CertainPair(t, pairs, row, config)
  {
    var rows := RowsFor(t.identities, Alias.Candidates(pairs, config), runPk);
    AddAllCertain(t.aliases, rows, row);
    if AnyCertain(rows, row) { CertainRowIsPair(t, runPk, config, pairs, row); }
    if CertainPair(t, pairs, row, config) { PairIsCertainRow(t, runPk, config, pairs, row); }
  }

  // ---- when a merged history is in doubt ---------------------------------

  /** The pair's old test belongs to the group of `id`. */
  ghost predicate PairWithin(t: Tables, p: Pair, id: nat) {
    exists x: nat :: x < |t.identities| && t.identities[x].fingerprint == p.before.fingerprint
      && Connected(t.aliases, id, x)
  }

  ghost predicate FarPairWithin(t: Tables, pairs: seq<Pair>, id: nat, config: IdentityConfig) {
    exists p :: p in pairs && PairWithin(t, p, id) && p.distance > config.aliasCertainDistance
  }

  ghost predicate AllNew(old': seq<AliasRow>, aliases: seq<AliasRow>, id: nat) {
    forall r :: r in old' ==> !Connected(aliases, id, r.oldId)
  }

  lemma {:induction false} OneCertain(aliases: seq<AliasRow>, row: AliasRow)
    requires UniqueAliases(aliases) && row in aliases
    ensures AnyCertain(aliases, row) <==> row.certain
  {
    if AnyCertain(aliases, row) {
      var a :| a in aliases && BetweenEnds(a, row) && a.certain;
      var i :| 0 <= i < |aliases| && aliases[i] == a;
      var j :| 0 <= j < |aliases| && aliases[j] == row;
      if i < j { assert !SameAlias(aliases[i], aliases[j]); }
      if j < i { assert !SameAlias(aliases[j], aliases[i]); }
    }
  }

  lemma {:induction false} SameEndsSamePair(t: Tables, runPk: nat, config: IdentityConfig, pairs: seq<Pair>, p: Pair,
                                            q: Pair, row: AliasRow)
    requires IsOutcome(Scored(Disappeared(t, runPk), Appeared(t, runPk), config), pairs)
    requires p in pairs && q in pairs && PairEnds(t, p, row) && PairEnds(t, q, row)
    ensures p == q
  {
    assert p.before.fingerprint in Ends(p) * Ends(q);
    AcceptedIsMatching(Scored(Disappeared(t, runPk), Appeared(t, runPk), config), p, q);
  }

  /** A doubtful edge of a new group comes from a pair that is too far apart. */
  lemma {:induction false} DoubtIsFar(t: Tables, runPk: nat, config: IdentityConfig, t': Tables, pairs: seq<Pair>,
                                      id: nat, row: AliasRow)
    requires Valid(t) && Reconciled(t, runPk, config, t'.aliases, pairs) && t'.identities == t.identities
    requires Valid(t') && AllNew(t.aliases, t'.aliases, id)
    requires row in t'.aliases && Connected(t'.aliases, id, row.oldId) && !row.certain
    ensures FarPairWithin(t', pairs, id, config)
  {
    var rows := RowsFor(t.identities, Alias.Candidates(pairs, config), runPk);
    var b := AddAliasesFrom(t.aliases, rows, row);
    assert b !in t.aliases;
    var k :| 0 <= k < |rows| && rows[k] == b;
    PairRow(t, runPk, config, pairs, k);
    assert pairs[k] in pairs && PairWithin(t', pairs[k], id);
    OneCertain(t'.aliases, row);
    CertainIff(t, runPk, config, t'.aliases, pairs, row);
    assert !CertainPair(t, pairs, row, config);
  }

  lemma {:induction false} PairEdge(t: Tables, runPk: nat, config: IdentityConfig, aliases: seq<AliasRow>,
                                    pairs: seq<Pair>, p: Pair) returns (row: AliasRow)
    requires Valid(t) && Reconciled(t, runPk, config, aliases, pairs) && p in pairs
    ensures row in aliases && PairEnds(t, p, row)
  {
    var rows := RowsFor(t.identities, Alias.Candidates(pairs, config), runPk);
    var k :| 0 <= k < |pairs| && pairs[k] == p;
    PairRow(t, runPk, config, pairs, k);
    AddAliasesGrow(t.aliases, rows);
    assert rows[k] in rows;
    var i :| 0 <= i < |aliases| && SameAlias(aliases[i], rows[k]);
    row := aliases[i];
  }

  lemma {:induction false} FarIsUncertain(t: Tables, runPk: nat, config: IdentityConfig, aliases: seq<AliasRow>,
                                          pairs: seq<Pair>, p: Pair, row: AliasRow)
    requires Valid(t) && Reconciled(t, runPk, config, aliases, pairs) && UniqueAliases(aliases)
    requires p in pairs && PairEnds(t, p, row) && p.distance > config.aliasCertainDistance
    requires row in aliases && !AnyCertain(t.aliases, row)
    ensures !row.certain
  {
    OneCertain(aliases, row);
    CertainIff(t, runPk, config, aliases, pairs, row);
    if CertainPair(t, pairs, row, config) {
      var q :| q in pairs && PairEnds(t, q, row) && q.distance <= config.aliasCertainDistance;
      SameEndsSamePair(t, runPk, config, pairs, p, q, row);
      assert false;
    }
  }

  lemma {:induction false} FarIsDoubt(t: Tables, runPk: nat, config: IdentityConfig, t': Tables, pairs: seq<Pair>,
                                      id: nat) returns (row: AliasRow)
    requires Valid(t) && Reconciled(t, runPk, config, t'.aliases, pairs) && t'.identities == t.identities
    requires Valid(t') && AllNew(t.aliases, t'.aliases, id) && FarPairWithin(t', pairs, id, config)
    ensures row in t'.aliases && Connected(t'.aliases, id, row.oldId) && !row.certain
  {
    var p :| p in pairs && PairWithin(t', p, id) && p.distance > config.aliasCertainDistance;
    row := PairEdge(t, runPk, config, t'.aliases, pairs, p);
    OneIdentity(t', p, id, row.oldId);
    assert !AnyCertain(t.aliases, row);
    FarIsUncertain(t, runPk, config, t'.aliases, pairs, p, row);
  }

  lemma {:induction false} OneIdentity(t: Tables, p: Pair, id: nat, x: nat)
    requires UniqueFingerprints(t.identities) && PairWithin(t, p, id)
    requires x < |t.identities| && t.identities[x].fingerprint == p.before.fingerprint
    ensures Connected(t.aliases, id, x)
  {
    var y: nat :| y < |t.identities| && t.identities[y].fingerprint == p.before.fingerprint
      && Connected(t.aliases, id, y);
    OneRow(t.identities, x, y);
  }

  /** A group that an ingest newly forms is in doubt exactly when some accepted pair in it is farther apart than the
      certain distance. */
  lemma {:induction false} NewGroupInDoubtIff(t: Tables, b: Batch, config: IdentityConfig, t': Tables, pairs: seq<Pair>,
                                              id: nat, ids: seq<nat>, uncertain: bool)
    requires Valid(t) && Ingested(t, b, config, t', pairs) && AllNew(t.aliases, t'.aliases, id)
    requires IsGroup(t'.aliases, id, ids, uncertain)
    ensures uncertain <==> FarPairWithin(t', pairs, id, config)
  {
    var p, runPk := Persisted(t, b), RunPk(t, b.metadata);
    PersistedIsValid(t, b);
    ReconciledKeeps(p, runPk, config, t'.aliases, pairs);
    assert Valid(t');
    if uncertain {
      var row :| row in t'.aliases && Connected(t'.aliases, id, row.oldId) && !row.certain;
      DoubtIsFar(p, runPk, config, t', pairs, id, row);
    }
    if FarPairWithin(t', pairs, id, config) {
      var row := FarIsDoubt(p, runPk, config, t', pairs, id);
    }
  }

  // ---- the diff ----------------------------------------------------------

  /** Change `k` is the first of its path. */
  ghost predicate FirstOfPath(changes: seq<FileChange>, k: int) {
    0 <= k < |changes| && forall j :: 0 <= j < k ==> changes[j].path != changes[k].path
  }

  /** The first change of each path of a run is kept, and what was there stays. */
  lemma {:induction false} DiffIsStored(files: map<DiffKey, FileChange>, runPk: nat, changes: seq<FileChange>,
                                        key: DiffKey)
    ensures var after := AddFiles(files, runPk, changes);
      && (key in files ==> key in after && after[key] == files[key])
      && (key !in files ==>
        && (key in after <==> key.runPk == runPk && exists c :: c in changes && c.path == key.path)
        && (forall k :: FirstOfPath(changes, k) && key == DiffKey(runPk, changes[k].path) ==>
              key in after && after[key] == changes[k]))
    decreases |changes|
  {
    if changes != [] {
      var n := |changes| - 1;
      var rest := changes[..n];
      DiffIsStored(files, runPk, rest, key);
      assert changes == rest + [changes[n]];
      forall k | FirstOfPath(changes, k) && key == DiffKey(runPk, changes[k].path) && key !in files
        ensures key in AddFiles(files, runPk, changes) && AddFiles(files, runPk, changes)[key] == changes[k]
      {
        if k < n { assert FirstOfPath(rest, k) && rest[k] == changes[k]; }
      }
    }
  }

  // ---- the newest executions ---------------------------------------------

  predicate NoNewer(a: ExecutionRecord, b: ExecutionRecord) {
    a.startedAt < b.startedAt || (a.startedAt == b.startedAt && a.executionId <= b.executionId)
  }

  lemma {:induction false} WholeIsOrdered(t: Tables, keep: set<nat>)
    ensures var all := NewestOf(t, keep, None);
      && (forall i, j :: 0 <= i < j < |all| ==> NoNewer(all[j], all[i]))
      && multiset(all) == multiset(AllRows(t, keep))
  {
    var rows := AllRows(t, keep);
    RowsOrderable(t, keep, rows);
    Sorting.SortElements(rows, NewerFirst);
    Sorting.SortBySorts(rows, NewerFirst);
    var all := NewestOf(t, keep, None);
    forall i, j | 0 <= i < j < |all| ensures NoNewer(all[j], all[i]) { Sorting.SortedIndex(all, NewerFirst, i, j); }
  }

  /** A limited read lists the latest started executions first, later rows first among equals, and leaves out only
      what is no newer than anything it lists. */
  lemma {:induction false} NewestIs(t: Tables, keep: set<nat>, limit: nat)
    ensures var all, some := NewestOf(t, keep, None), NewestOf(t, keep, Some(limit));
      && some <= all && |some| == (if |all| < limit then |all| else limit)
      && (forall i, j :: 0 <= i < j < |some| ==> NoNewer(some[j], some[i]))
      && (forall r, s :: r in some && s in all[|some|..] ==> NoNewer(s, r))
  {
    var all, some := NewestOf(t, keep, None), NewestOf(t, keep, Some(limit));
    WholeIsOrdered(t, keep);
    TopK.TakeIsPrefix(all, limit);
    forall r, s | r in some && s in all[|some|..] ensures NoNewer(s, r) {
      var i :| 0 <= i < |some| && some[i] == r;
      var j :| 0 <= j < |all[|some|..]| && all[|some|..][j] == s;
      assert all[i] == r && all[|some| + j] == s;
    }
  }

  // ---- the two sides of a reconciliation ---------------------------------

  ghost predicate RanEarlier(t: Tables, id: nat, runPk: nat) {
    exists e :: e in t.executions && e.identityId == id && StartedEarlier(t, e, runPk)
  }

  predicate StartedEarlier(t: Tables, e: ExecutionRow, runPk: nat) {
    e.runPk < |t.runs| && runPk < |t.runs| && t.runs[e.runPk].startedAt < t.runs[runPk].startedAt
  }

  ghost predicate RanIn(t: Tables, id: nat, runPk: nat) {
    exists e :: e in t.executions && e.identityId == id && e.runPk == runPk
  }

  /** Gone are the tests that ran in a run started before this one and not in it; new are those that ran in it and in no
      run started before. */
  lemma {:induction false} SidesMean(t: Tables, runPk: nat, id: nat)
    requires ForeignKeys(t)
    ensures id in DisappearedIds(t, runPk) <==>
      id < |t.identities| && RanEarlier(t, id, runPk) && !RanIn(t, id, runPk)
    ensures id in AppearedIds(t, runPk) <==> RanIn(t, id, runPk) && !RanEarlier(t, id, runPk)
  {
    IdsAre(t, runPk);
    SeenIsEarlier(t, id, runPk);
  }

  lemma {:induction false} SeenIsEarlier(t: Tables, id: nat, runPk: nat)
    ensures SeenBefore(t.runs, t.executions, id, runPk) <==> RanEarlier(t, id, runPk)
  {
    forall e ensures e in t.executions && e.identityId == id && Earlier(t.runs, e, runPk) <==>
        e in t.executions && e.identityId == id && StartedEarlier(t, e, runPk) {
    }
  }

  // ---- what a summary counts ---------------------------------------------

  predicate TooFar(p: Pair, config: IdentityConfig) { p.distance > config.aliasCertainDistance }

  /** The uncertain aliases of a summary are the accepted pairs farther apart than the certain distance. */
  lemma {:induction false} UncertainAre(pairs: seq<Pair>, config: IdentityConfig)
    ensures UncertainCount(Alias.Candidates(pairs, config)) == |Picking.At(pairs, (p: Pair) => TooFar(p, config))|
    decreases |pairs|
  {
    var far := (p: Pair) => TooFar(p, config);
    if pairs == [] {
      Picking.AtNone(far);
    } else {
      var n := |pairs| - 1;
      UncertainAre(pairs[..n], config);
      Picking.AtSnoc(pairs[..n], far, pairs[n], pairs);
      assert Alias.Candidates(pairs, config)[..n] == Alias.Candidates(pairs[..n], config);
    }
  }
}

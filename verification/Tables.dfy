/** store/schema.py and the writes of store/repositories.py, as functions on table contents.
    A row id is the row's position in its table; rows are never deleted. */
module Tables {
  import opened Models

  datatype RunRow = RunRow(
    runId: string, attempt: nat, commitSha: nat, branch: string, shardId: string, workerId: string, startedAt: int)

  datatype ExecutionRow = ExecutionRow(runPk: nat, identityId: nat, result: TestCaseResult)

  datatype AliasRow = AliasRow(oldId: nat, newId: nat, similarity: real, certain: bool, observedRun: nat)

  datatype DiffKey = DiffKey(runPk: nat, path: string)

  datatype Tables = Tables(
    runs: seq<RunRow>, identities: seq<TestIdentity>, executions: seq<ExecutionRow>,
    aliases: seq<AliasRow>, diffFiles: map<DiffKey, FileChange>)

  // ---- constraints -------------------------------------------------------

  predicate SameRun(a: RunRow, b: RunRow) { a.runId == b.runId && a.attempt == b.attempt && a.shardId == b.shardId }

  predicate SameExecution(a: ExecutionRow, b: ExecutionRow) { a.runPk == b.runPk && a.identityId == b.identityId }

  predicate SameAlias(a: AliasRow, b: AliasRow) { a.oldId == b.oldId && a.newId == b.newId }

  ghost predicate UniqueRuns(runs: seq<RunRow>) {
    forall i, j :: 0 <= i < j < |runs| ==> !SameRun(runs[i], runs[j])
  }

  ghost predicate UniqueFingerprints(identities: seq<TestIdentity>) {
    forall i, j :: 0 <= i < j < |identities| ==> identities[i].fingerprint != identities[j].fingerprint
  }

  ghost predicate UniqueExecutions(executions: seq<ExecutionRow>) {
    forall i, j :: 0 <= i < j < |executions| ==> !SameExecution(executions[i], executions[j])
  }

  ghost predicate UniqueAliases(aliases: seq<AliasRow>) {
    forall i, j :: 0 <= i < j < |aliases| ==> !SameAlias(aliases[i], aliases[j])
  }

  ghost predicate ForeignKeys(t: Tables) {
    && (forall e :: e in t.executions ==> e.runPk < |t.runs| && e.identityId < |t.identities|)
    && (forall a :: a in t.aliases ==> a.oldId < |t.identities| && a.newId < |t.identities|)
  }

  ghost predicate Valid(t: Tables) {
    && UniqueRuns(t.runs) && UniqueFingerprints(t.identities)
    && UniqueExecutions(t.executions) && UniqueAliases(t.aliases)
    && ForeignKeys(t)
  }

  const Empty := Tables([], [], [], [], map[])

  // ---- runs --------------------------------------------------------------

  function TextOf(o: Option<string>): string { if o.Some? then o.value else "" }

  function MakeRun(m: RunMetadata): RunRow {
    RunRow(m.runId, m.attempt, m.commitSha, TextOf(m.branch), TextOf(m.shardId), TextOf(m.workerId), m.startedAt)
  }

  /** Position of the row with the same (run_id, attempt, shard_id), or the table's length. */
  function FindRun(runs: seq<RunRow>, row: RunRow): (i: nat)
    ensures i <= |runs|
    ensures i < |runs| ==> SameRun(runs[i], row)
    ensures forall j :: 0 <= j < i ==> !SameRun(runs[j], row)
  {
    if runs == [] then 0 else if SameRun(runs[0], row) then 0 else 1 + FindRun(runs[1..], row)
  }

  function AddRun(t: Tables, m: RunMetadata): Tables {
    var row := MakeRun(m);
    if FindRun(t.runs, row) < |t.runs| then t else t.(runs := t.runs + [row])
  }

  function RunPk(t: Tables, m: RunMetadata): nat { FindRun(t.runs, MakeRun(m)) }

  // ---- identities --------------------------------------------------------

  function FindIdentity(identities: seq<TestIdentity>, fingerprint: nat): (i: nat)
    ensures i <= |identities|
    ensures i < |identities| ==> identities[i].fingerprint == fingerprint
    ensures forall j :: 0 <= j < i ==> identities[j].fingerprint != fingerprint
  {
    if identities == [] then 0
    else if identities[0].fingerprint == fingerprint then 0
    else 1 + FindIdentity(identities[1..], fingerprint)
  }

  /** COALESCE(new path, stored path). */
  function Refresh(row: TestIdentity, path: Option<string>): TestIdentity {
    row.(filePath := OrElse(path, row.filePath))
  }

  function Upsert(identities: seq<TestIdentity>, identity: TestIdentity): (r: seq<TestIdentity>)
    ensures |identities| <= |r|
  {
    var i := FindIdentity(identities, identity.fingerprint);
    if i < |identities| then identities[i := Refresh(identities[i], identity.filePath)]
    else identities + [identity]
  }

  function UpsertAll(identities: seq<TestIdentity>, batch: seq<TestIdentity>): (r: seq<TestIdentity>)
    ensures |identities| <= |r|
  {
    if batch == [] then identities
    else Upsert(UpsertAll(identities, batch[..|batch| - 1]), batch[|batch| - 1])
  }

  // ---- executions --------------------------------------------------------

  function HasExecution(executions: seq<ExecutionRow>, row: ExecutionRow): (b: bool)
    ensures b <==> exists i :: 0 <= i < |executions| && SameExecution(executions[i], row)
  {
    exists i :: 0 <= i < |executions| && SameExecution(executions[i], row)
  }

  function AddExecution(executions: seq<ExecutionRow>, row: ExecutionRow): seq<ExecutionRow> {
    if HasExecution(executions, row) then executions else executions + [row]
  }

  function AddExecutions(executions: seq<ExecutionRow>, rows: seq<ExecutionRow>): (r: seq<ExecutionRow>)
    ensures |executions| <= |r| <= |executions| + |rows|
    ensures executions <= r
  {
    if rows == [] then executions
    else AddExecution(AddExecutions(executions, rows[..|rows| - 1]), rows[|rows| - 1])
  }

  // ---- aliases -----------------------------------------------------------

  function FindAlias(aliases: seq<AliasRow>, row: AliasRow): (i: nat)
    ensures i <= |aliases|
    ensures i < |aliases| ==> SameAlias(aliases[i], row)
    ensures forall j :: 0 <= j < i ==> !SameAlias(aliases[j], row)
  {
    if aliases == [] then 0 else if SameAlias(aliases[0], row) then 0 else 1 + FindAlias(aliases[1..], row)
  }

  /** An existing edge is only ever strengthened. */
  function Strengthen(a: AliasRow, b: AliasRow): AliasRow {
    a.(similarity := if a.similarity < b.similarity then b.similarity else a.similarity,
       certain := a.certain || b.certain)
  }

  function AddAlias(aliases: seq<AliasRow>, row: AliasRow): (r: seq<AliasRow>)
    ensures |aliases| <= |r|
  {
    var i := FindAlias(aliases, row);
    if i < |aliases| then aliases[i := Strengthen(aliases[i], row)] else aliases + [row]
  }

  function AddAliases(aliases: seq<AliasRow>, rows: seq<AliasRow>): (r: seq<AliasRow>)
    ensures |aliases| <= |r|
  {
    if rows == [] then aliases
    else AddAlias(AddAliases(aliases, rows[..|rows| - 1]), rows[|rows| - 1])
  }

  // ---- diffs -------------------------------------------------------------

  function AddFile(files: map<DiffKey, FileChange>, runPk: nat, change: FileChange): map<DiffKey, FileChange> {
    var key := DiffKey(runPk, change.path);
    if key in files then files else files[key := change]
  }

  function AddFiles(files: map<DiffKey, FileChange>, runPk: nat, changes: seq<FileChange>)
    : (r: map<DiffKey, FileChange>)
    ensures files.Keys <= r.Keys
  {
    if changes == [] then files
    else AddFile(AddFiles(files, runPk, changes[..|changes| - 1]), runPk, changes[|changes| - 1])
  }

  // ---- repeating a write -------------------------------------------------

  /** The last path the batch supplies for a fingerprint. */
  function LastPath(batch: seq<TestIdentity>, fingerprint: nat): Option<string> {
    if batch == [] then None
    else
      var last := batch[|batch| - 1];
      var rest := LastPath(batch[..|batch| - 1], fingerprint);
      if last.fingerprint == fingerprint then OrElse(last.filePath, rest) else rest
  }

  /** A row present before a batch keeps its place and takes the batch's last path, if it has one. */
  lemma {:induction false} UpsertAllOld(identities: seq<TestIdentity>, batch: seq<TestIdentity>, k: nat)
    requires UniqueFingerprints(identities) && k < |identities|
    ensures UpsertAll(identities, batch)[k] == Refresh(identities[k], LastPath(batch, identities[k].fingerprint))
    decreases |batch|
  {
    if batch != [] {
      var rest := batch[..|batch| - 1];
      UpsertAllOld(identities, rest, k);
      UpsertAllUnique(identities, rest);
    }
  }

  lemma {:induction false} UpsertAllUnique(identities: seq<TestIdentity>, batch: seq<TestIdentity>)
    requires UniqueFingerprints(identities)
    ensures UniqueFingerprints(UpsertAll(identities, batch))
    decreases |batch|
  {
    if batch != [] {
      UpsertAllUnique(identities, batch[..|batch| - 1]);
    }
  }

  ghost predicate Present(identities: seq<TestIdentity>, fingerprint: nat) {
    exists k :: 0 <= k < |identities| && identities[k].fingerprint == fingerprint
  }

  lemma UpsertKeepsPresent(identities: seq<TestIdentity>, identity: TestIdentity, f: nat)
    requires Present(identities, f) || identity.fingerprint == f
    ensures Present(Upsert(identities, identity), f)
  {
    var r := Upsert(identities, identity);
    if identity.fingerprint == f {
      var i := FindIdentity(identities, f);
      assert r[i].fingerprint == f;
    } else {
      var k :| 0 <= k < |identities| && identities[k].fingerprint == f;
      assert r[k].fingerprint == f;
    }
  }

  /** After a batch every one of its fingerprints has a row, carrying the batch's last path. */
  lemma {:induction false} UpsertAllPresent(identities: seq<TestIdentity>, batch: seq<TestIdentity>)
    ensures forall b :: b in batch ==> Present(UpsertAll(identities, batch), b.fingerprint)
    decreases |batch|
  {
    if batch != [] {
      var rest, last := batch[..|batch| - 1], batch[|batch| - 1];
      UpsertAllPresent(identities, rest);
      forall b | b in batch ensures Present(UpsertAll(identities, batch), b.fingerprint) {
        if b !in rest { assert b == last; }
        UpsertKeepsPresent(UpsertAll(identities, rest), last, b.fingerprint);
      }
    }
  }

  lemma {:induction false} UpsertAllPath(identities: seq<TestIdentity>, batch: seq<TestIdentity>, k: nat)
    requires UniqueFingerprints(identities) && k < |UpsertAll(identities, batch)|
    ensures var row := UpsertAll(identities, batch)[k];
      LastPath(batch, row.fingerprint).Some? ==> row.filePath == LastPath(batch, row.fingerprint)
    decreases |batch|
  {
    if batch != [] {
      var rest := batch[..|batch| - 1];
      var before := UpsertAll(identities, rest);
      UpsertAllUnique(identities, rest);
      if k < |before| {
        UpsertAllPath(identities, rest, k);
      } else {
        NoPathYet(identities, rest, batch[|batch| - 1].fingerprint);
      }
    } else {
      assert LastPath([], identities[k].fingerprint).None?;
    }
  }

  lemma NoPathYet(identities: seq<TestIdentity>, batch: seq<TestIdentity>, f: nat)
    requires !Present(UpsertAll(identities, batch), f)
    ensures LastPath(batch, f).None?
  {
    UpsertAllPresent(identities, batch);
    NotMentioned(batch, f);
  }

  lemma {:induction false} NotMentioned(batch: seq<TestIdentity>, f: nat)
    requires forall b :: b in batch ==> b.fingerprint != f
    ensures LastPath(batch, f).None?
    decreases |batch|
  {
    if batch != [] { NotMentioned(batch[..|batch| - 1], f); }
  }

  lemma {:induction false} UpsertAllLength(identities: seq<TestIdentity>, batch: seq<TestIdentity>)
    requires UniqueFingerprints(identities)
    requires forall b :: b in batch ==> Present(identities, b.fingerprint)
    ensures |UpsertAll(identities, batch)| == |identities|
    decreases |batch|
  {
    if batch != [] {
      var rest, last := batch[..|batch| - 1], batch[|batch| - 1];
      UpsertAllLength(identities, rest);
      var before := UpsertAll(identities, rest);
      var k :| 0 <= k < |identities| && identities[k].fingerprint == last.fingerprint;
      UpsertAllOld(identities, rest, k);
      assert before[k].fingerprint == last.fingerprint;
    }
  }

  /** Upserting a batch again changes no identity row. */
  lemma UpsertAllTwice(identities: seq<TestIdentity>, batch: seq<TestIdentity>)
    requires UniqueFingerprints(identities)
    ensures UpsertAll(UpsertAll(identities, batch), batch) == UpsertAll(identities, batch)
  {
    var once := UpsertAll(identities, batch);
    UpsertAllUnique(identities, batch);
    UpsertAllPresent(identities, batch);
    UpsertAllLength(once, batch);
    forall k | 0 <= k < |once| ensures UpsertAll(once, batch)[k] == once[k] {
      UpsertAllOld(once, batch, k);
      UpsertAllPath(identities, batch, k);
    }
  }

  lemma {:induction false} AddExecutionsHas(executions: seq<ExecutionRow>, rows: seq<ExecutionRow>)
    ensures forall r :: r in rows ==> HasExecution(AddExecutions(executions, rows), r)
    decreases |rows|
  {
    if rows != [] {
      var rest, last := rows[..|rows| - 1], rows[|rows| - 1];
      AddExecutionsHas(executions, rest);
      var before, after := AddExecutions(executions, rest), AddExecutions(executions, rows);
      forall r | r in rows ensures HasExecution(after, r) {
        if r in rest {
          var i :| 0 <= i < |before| && SameExecution(before[i], r);
          assert SameExecution(after[i], r);
        } else {
          assert r == last;
          if !HasExecution(before, last) { assert SameExecution(after[|before|], r); }
        }
      }
    }
  }

  lemma {:induction false} AddExecutionsSkips(executions: seq<ExecutionRow>, rows: seq<ExecutionRow>)
    requires forall r :: r in rows ==> HasExecution(executions, r)
    ensures AddExecutions(executions, rows) == executions
    decreases |rows|
  {
    if rows != [] { AddExecutionsSkips(executions, rows[..|rows| - 1]); }
  }

  lemma {:induction false} AddExecutionsUnique(executions: seq<ExecutionRow>, rows: seq<ExecutionRow>)
    requires UniqueExecutions(executions)
    ensures UniqueExecutions(AddExecutions(executions, rows))
    ensures forall e :: e in AddExecutions(executions, rows) ==> e in executions || e in rows
    decreases |rows|
  {
    if rows != [] { AddExecutionsUnique(executions, rows[..|rows| - 1]); }
  }

  // ---- alias edges only strengthen ---------------------------------------

  /** An edge for the same two identities that is at least as strong is already stored. */
  ghost predicate Absorbs(aliases: seq<AliasRow>, row: AliasRow) {
    exists i :: 0 <= i < |aliases| && SameAlias(aliases[i], row)
      && row.similarity <= aliases[i].similarity && (row.certain ==> aliases[i].certain)
  }

  predicate AtLeast(a: AliasRow, b: AliasRow) {
    SameAlias(a, b) && a.similarity <= b.similarity && (a.certain ==> b.certain)
  }

  /** Every edge of `a` is in `b`, at least as strong, and in the same place. */
  ghost predicate Grows(a: seq<AliasRow>, b: seq<AliasRow>) {
    && |a| <= |b|
    && forall k :: 0 <= k < |a| ==> AtLeast(a[k], b[k])
  }

  lemma AddAliasGrows(aliases: seq<AliasRow>, row: AliasRow)
    ensures Grows(aliases, AddAlias(aliases, row))
    ensures Absorbs(AddAlias(aliases, row), row)
    ensures UniqueAliases(aliases) ==> UniqueAliases(AddAlias(aliases, row))
    ensures forall a :: a in AddAlias(aliases, row) ==>
      SameAlias(a, row) || exists b :: b in aliases && SameAlias(a, b)
  {
    var i := FindAlias(aliases, row);
    assert SameAlias(AddAlias(aliases, row)[i], row);
    forall a | a in AddAlias(aliases, row)
      ensures SameAlias(a, row) || exists b :: b in aliases && SameAlias(a, b)
    {
      if a in aliases { assert SameAlias(a, a); }
    }
  }

  lemma GrowsAbsorbs(a: seq<AliasRow>, b: seq<AliasRow>, row: AliasRow)
    requires Grows(a, b) && Absorbs(a, row)
    ensures Absorbs(b, row)
  {
    var i :| 0 <= i < |a| && SameAlias(a[i], row) && row.similarity <= a[i].similarity &&
      (row.certain ==> a[i].certain);
    assert AtLeast(a[i], b[i]) && SameAlias(b[i], row);
  }

  lemma {:induction false} AddAliasesGrow(aliases: seq<AliasRow>, rows: seq<AliasRow>)
    ensures Grows(aliases, AddAliases(aliases, rows))
    ensures forall r :: r in rows ==> Absorbs(AddAliases(aliases, rows), r)
    ensures UniqueAliases(aliases) ==> UniqueAliases(AddAliases(aliases, rows))
    decreases |rows|
  {
    if rows != [] {
      var rest, last := rows[..|rows| - 1], rows[|rows| - 1];
      AddAliasesGrow(aliases, rest);
      var before := AddAliases(aliases, rest);
      AddAliasGrows(before, last);
      forall r | r in rows ensures Absorbs(AddAliases(aliases, rows), r) {
        if r in rest { GrowsAbsorbs(before, AddAlias(before, last), r); }
      }
    }
  }

  lemma {:induction false} AddAliasesFrom(aliases: seq<AliasRow>, rows: seq<AliasRow>, a: AliasRow)
    returns (b: AliasRow)
    requires a in AddAliases(aliases, rows)
    ensures SameAlias(a, b) && (b in aliases || b in rows)
    decreases |rows|
  {
    if rows == [] {
      b := a;
    } else {
      var rest, last := rows[..|rows| - 1], rows[|rows| - 1];
      var before := AddAliases(aliases, rest);
      AddAliasGrows(before, last);
      if SameAlias(a, last) {
        b := last;
      } else {
        var c :| c in before && SameAlias(a, c);
        b := AddAliasesFrom(aliases, rest, c);
      }
    }
  }

  lemma AbsorbedIsNoChange(aliases: seq<AliasRow>, row: AliasRow)
    requires UniqueAliases(aliases) && Absorbs(aliases, row)
    ensures AddAlias(aliases, row) == aliases
  {
    var i :| 0 <= i < |aliases| && SameAlias(aliases[i], row)
      && row.similarity <= aliases[i].similarity && (row.certain ==> aliases[i].certain);
    var k := FindAlias(aliases, row);
    assert k <= i;
    if k < i { assert SameAlias(aliases[k], aliases[i]); }
    assert Strengthen(aliases[i], row) == aliases[i];
  }

  lemma {:induction false} AddAliasesTwice(aliases: seq<AliasRow>, rows: seq<AliasRow>)
    requires UniqueAliases(aliases) && forall r :: r in rows ==> Absorbs(aliases, r)
    ensures AddAliases(aliases, rows) == aliases
    decreases |rows|
  {
    if rows != [] {
      AddAliasesTwice(aliases, rows[..|rows| - 1]);
      AbsorbedIsNoChange(aliases, rows[|rows| - 1]);
    }
  }

  // ---- diffs -------------------------------------------------------------

  lemma {:induction false} AddFilesKeys(files: map<DiffKey, FileChange>, runPk: nat, changes: seq<FileChange>)
    ensures forall c :: c in changes ==> DiffKey(runPk, c.path) in AddFiles(files, runPk, changes)
    decreases |changes|
  {
    if changes != [] { AddFilesKeys(files, runPk, changes[..|changes| - 1]); }
  }

  lemma {:induction false} AddFilesSkips(files: map<DiffKey, FileChange>, runPk: nat, changes: seq<FileChange>)
    requires forall c :: c in changes ==> DiffKey(runPk, c.path) in files
    ensures AddFiles(files, runPk, changes) == files
    decreases |changes|
  {
    if changes != [] { AddFilesSkips(files, runPk, changes[..|changes| - 1]); }
  }

  lemma AddRunFacts(t: Tables, m: RunMetadata)
    requires UniqueRuns(t.runs)
    ensures UniqueRuns(AddRun(t, m).runs)
    ensures RunPk(AddRun(t, m), m) == RunPk(t, m) < |AddRun(t, m).runs|
    ensures AddRun(AddRun(t, m), m) == AddRun(t, m)
    ensures t.runs <= AddRun(t, m).runs
  {
    var row := MakeRun(m);
    var once := AddRun(t, m);
    assert SameRun(row, row);
    var i, j := FindRun(t.runs, row), FindRun(once.runs, row);
    if i == |t.runs| {
      assert once.runs[i] == row;
      assert j == i by {
        assert forall k :: 0 <= k < i ==> once.runs[k] == t.runs[k];
      }
    }
  }
}

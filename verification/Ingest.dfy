/** ingest/pipeline.py: the ordered composition of the store writes, from resolved cases on. */
module Ingest {
  import opened Models
  import opened Tables
  import opened Renames
  import opened Store
  import opened Reconcile
  import Alias

  /** A parsed case together with the identity it resolves to. */
  datatype Case = Case(identity: TestIdentity, result: TestCaseResult)

  datatype Batch = Batch(metadata: RunMetadata, cases: seq<Case>, diff: Option<seq<FileChange>>)

  datatype Summary = Summary(
    runPk: nat, ingested: nat, skipped: nat, newIdentities: nat, diffFiles: nat, aliasesRecorded: nat,
    uncertainAliases: nat)

  /** How many of the candidates are not certain. */
  function UncertainCount(cs: seq<Candidate>): nat {
    if cs == [] then 0 else UncertainCount(cs[..|cs| - 1]) + if cs[|cs| - 1].certain then 0 else 1
  }

  function IdentitiesOf(cases: seq<Case>): (r: seq<TestIdentity>)
    ensures |r| == |cases|
  {
    seq(|cases|, k requires 0 <= k < |cases| => cases[k].identity)
  }

  function RowsOf(identities: seq<TestIdentity>, runPk: nat, cases: seq<Case>): (r: seq<ExecutionRow>)
    ensures |r| == |cases|
  {
    seq(|cases|, k requires 0 <= k < |cases| =>
      ExecutionRow(runPk, FindIdentity(identities, cases[k].identity.fingerprint), cases[k].result))
  }

  /** The tables once runs, identities and executions are written, before reconciliation. */
  function Persisted(t: Tables, b: Batch): Tables {
    var t1 := AddRun(t, b.metadata);
    var identities := UpsertAll(t.identities, IdentitiesOf(b.cases));
    var rows := RowsOf(identities, RunPk(t, b.metadata), b.cases);
    t1.(identities := identities, executions := AddExecutions(t.executions, rows))
  }

  function WithDiff(files: map<DiffKey, FileChange>, runPk: nat, diff: Option<seq<FileChange>>)
    : map<DiffKey, FileChange>
  {
    if diff.Some? then AddFiles(files, runPk, diff.value) else files
  }

  /** The tables after one ingest, with the rename pairs it accepted. */
  ghost predicate Ingested(t: Tables, b: Batch, config: IdentityConfig, t': Tables, pairs: seq<Pair>) {
    var p, runPk := Persisted(t, b), RunPk(t, b.metadata);
    && Reconciled(p, runPk, config, t'.aliases, pairs)
    && t' == p.(aliases := t'.aliases, diffFiles := WithDiff(t.diffFiles, runPk, b.diff))
  }

  // ---- the method --------------------------------------------------------

  lemma FindStable(identities: seq<TestIdentity>, batch: seq<TestIdentity>, fingerprint: nat)
    requires UniqueFingerprints(identities) && FindIdentity(identities, fingerprint) < |identities|
    ensures FindIdentity(UpsertAll(identities, batch), fingerprint) == FindIdentity(identities, fingerprint)
  {
    var i := FindIdentity(identities, fingerprint);
    UpsertAllOld(identities, batch, i);
    UpsertAllUnique(identities, batch);
    var j := FindIdentity(UpsertAll(identities, batch), fingerprint);
    assert UpsertAll(identities, batch)[i].fingerprint == fingerprint;
  }

  lemma UpsertOneStable(identities: seq<TestIdentity>, identity: TestIdentity, f: nat)
    requires UniqueFingerprints(identities) && FindIdentity(identities, f) < |identities|
    ensures FindIdentity(Upsert(identities, identity), f) == FindIdentity(identities, f)
  {
    assert UpsertAll(identities, [identity]) == Upsert(UpsertAll(identities, []), identity);
    FindStable(identities, [identity], f);
  }

  ghost predicate Numbered(identities: seq<TestIdentity>, cases: seq<Case>, rows: seq<(nat, TestCaseResult)>) {
    && |rows| == |cases|
    && (forall k :: 0 <= k < |rows| ==> rows[k].1 == cases[k].result)
    && (forall k :: 0 <= k < |rows| ==>
      rows[k].0 == FindIdentity(identities, cases[k].identity.fingerprint) < |identities|)
  }

  lemma NumberedStep(before: seq<TestIdentity>, cases: seq<Case>, k: nat, rows: seq<(nat, TestCaseResult)>, id: nat)
    requires k < |cases| && UniqueFingerprints(before) && Numbered(before, cases[..k], rows)
    requires id == FindIdentity(before, cases[k].identity.fingerprint)
    ensures Numbered(Upsert(before, cases[k].identity), cases[..k + 1], rows + [(id, cases[k].result)])
  {
    var after := Upsert(before, cases[k].identity);
    assert UpsertAll(before, [cases[k].identity]) == Upsert(UpsertAll(before, []), cases[k].identity);
    UpsertAllUnique(before, [cases[k].identity]);
    forall i | 0 <= i < k
      ensures FindIdentity(after, cases[i].identity.fingerprint) == FindIdentity(before, cases[i].identity.fingerprint)
    {
      assert cases[..k][i] == cases[i];
      UpsertOneStable(before, cases[k].identity, cases[i].identity.fingerprint);
    }
    var j := FindIdentity(after, cases[k].identity.fingerprint);
    assert after[id].fingerprint == cases[k].identity.fingerprint;
    assert j == id;
  }

  method ResolveCases(store: RunStore, cases: seq<Case>) returns (rows: seq<(nat, TestCaseResult)>, created: nat)
    requires UniqueFingerprints(store.identities)
    modifies store`identities
    ensures store.identities == UpsertAll(old(store.identities), IdentitiesOf(cases))
    ensures Numbered(store.identities, cases, rows)
    ensures created == |store.identities| - |old(store.identities)|
  {
    rows, created := [], 0;
    ghost var all := IdentitiesOf(cases);
    for k := 0 to |cases|
      invariant store.identities == UpsertAll(old(store.identities), all[..k])
      invariant Numbered(store.identities, cases[..k], rows)
      invariant created == |store.identities| - |old(store.identities)|
    {
      UpsertAllUnique(old(store.identities), all[..k]);
      assert all[..k + 1][..k] == all[..k] && all[k] == cases[k].identity;
      ghost var before := store.identities;
      var id, fresh' := store.UpsertIdentity(cases[k].identity);
      NumberedStep(before, cases, k, rows, id);
      created := created + (if fresh' then 1 else 0);
      rows := rows + [(id, cases[k].result)];
    }
    assert all[..|cases|] == all && cases[..|cases|] == cases;
  }

  /** The run, the identities in order of appearance, and the executions. */
  method Persist(store: RunStore, batch: Batch) returns (runPk: nat, inserted: nat, skipped: nat, created: nat)
    requires Valid(store.View())
    modifies store
    ensures store.View() == Persisted(old(store.View()), batch)
    ensures runPk == RunPk(old(store.View()), batch.metadata)
    ensures inserted == |store.executions| - |old(store.executions)| && inserted + skipped == |batch.cases|
    ensures created == |store.identities| - |old(store.identities)|
  {
    runPk := store.RecordRun(batch.metadata);
    var rows, added := ResolveCases(store, batch.cases);
    created := added;
    inserted, skipped := store.RecordExecutions(runPk, rows);
    assert ExecutionRows(runPk, rows) == RowsOf(store.identities, runPk, batch.cases);
  }

  method Ingest(store: RunStore, batch: Batch, config: IdentityConfig)
    returns (summary: Summary, ghost pairs: seq<Pair>)
    requires Valid(store.View())
    modifies store
    ensures Ingested(old(store.View()), batch, config, store.View(), pairs)
    ensures summary.runPk == RunPk(old(store.View()), batch.metadata)
    ensures summary.ingested == |store.executions| - |old(store.executions)|
    ensures summary.ingested + summary.skipped == |batch.cases|
    ensures summary.newIdentities == |store.identities| - |old(store.identities)|
    ensures summary.diffFiles == if batch.diff.Some? then |batch.diff.value| else 0
    ensures summary.aliasesRecorded == |pairs|
    ensures summary.uncertainAliases == UncertainCount(Alias.Candidates(pairs, config))
  {
    PersistedIsValid(store.View(), batch);
    var runPk, inserted, skipped, created := Persist(store, batch);
    var recorded;
    recorded, pairs := ReconcileRenames(store, runPk, config);
    var diffFiles := 0;
    if batch.diff.Some? {
      diffFiles := store.RecordDiff(runPk, batch.diff.value);
    }
    summary := Summary(runPk, inserted, skipped, created, diffFiles, |recorded|, UncertainCount(recorded));
  }

  lemma PersistedIsValid(t: Tables, b: Batch)
    requires Valid(t)
    ensures Valid(Persisted(t, b))
    ensures RunPk(t, b.metadata) < |Persisted(t, b).runs|
    ensures |t.identities| <= |Persisted(t, b).identities|
  {
    var ids := IdentitiesOf(b.cases);
    var identities := UpsertAll(t.identities, ids);
    var rows := RowsOf(identities, RunPk(t, b.metadata), b.cases);
    AddRunFacts(t, b.metadata);
    UpsertAllUnique(t.identities, ids);
    AddExecutionsUnique(t.executions, rows);
    UpsertAllPresent(t.identities, ids);
    forall r | r in rows ensures r.identityId < |identities| && r.runPk == RunPk(t, b.metadata) {
      var k :| 0 <= k < |rows| && rows[k] == r;
      assert ids[k] in ids;
      var i :| 0 <= i < |identities| && identities[i].fingerprint == ids[k].fingerprint;
    }
  }
}

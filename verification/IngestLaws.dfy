/** What every ingest, and every sequence of ingests, keeps. */
module IngestLaws {
  import opened Models
  import opened Tables
  import opened AliasGraph
  import opened Renames
  import opened Store
  import opened Reconcile
  import opened Ingest
  import Alias
  import Sorting

  // ---- idempotence -------------------------------------------------------

  lemma PersistedTwice(t: Tables, b: Batch, t': Tables)
    requires Valid(t)
    requires t' == Persisted(t, b).(aliases := t'.aliases, diffFiles := t'.diffFiles)
    ensures Persisted(t', b) == t'
    ensures RunPk(t', b.metadata) == RunPk(t, b.metadata)
  {
    var p := Persisted(t, b);
    AddRunFacts(t, b.metadata);
    UpsertAllTwice(t.identities, IdentitiesOf(b.cases));
    var rows := RowsOf(p.identities, RunPk(t, b.metadata), b.cases);
    AddExecutionsHas(t.executions, rows);
    AddExecutionsSkips(p.executions, rows);
    SameRuns(AddRun(t, b.metadata), t', b.metadata);
  }

  lemma SameRuns(t: Tables, t': Tables, m: RunMetadata)
    requires t.runs == t'.runs
    ensures RunPk(t, m) == RunPk(t', m)
    ensures AddRun(t', m).runs == AddRun(t, m).runs
    ensures AddRun(t', m) == t'.(runs := AddRun(t, m).runs)
  {
  }

  /** Reconciliation reads only runs, executions and identities. */
  lemma SameSides(t: Tables, t': Tables, runPk: nat)
    requires t.runs == t'.runs && t.executions == t'.executions && t.identities == t'.identities
    ensures Disappeared(t, runPk) == Disappeared(t', runPk)
    ensures Appeared(t, runPk) == Appeared(t', runPk)
  {
  }

  /** Ingesting the same batch twice in a row leaves every table exactly as once. */
  lemma IngestTwice(t: Tables, b: Batch, config: IdentityConfig, once: Tables, pairs: seq<Pair>, twice: Tables,
                    pairs': seq<Pair>)
    requires Valid(t) && Ingested(t, b, config, once, pairs) && Ingested(once, b, config, twice, pairs')
    ensures twice == once && pairs' == pairs
  {
    var p, runPk := Persisted(t, b), RunPk(t, b.metadata);
    PersistedTwice(t, b, once);
    SameSides(p, once, runPk);
    OrderedListUnique(pairs, pairs');
    var rows := RowsFor(p.identities, Alias.Candidates(pairs, config), runPk);
    PersistedIsValid(t, b);
    AddAliasesGrow(p.aliases, rows);
    AddAliasesTwice(once.aliases, rows);
    if b.diff.Some? {
      AddFilesKeys(t.diffFiles, runPk, b.diff.value);
      AddFilesSkips(once.diffFiles, runPk, b.diff.value);
    }
  }

  // ---- one ingest --------------------------------------------------------

  /** `t'` extends `t`: rows stay in place, and edges only get stronger. */
  ghost predicate Extends(t: Tables, t': Tables) {
    && t.runs <= t'.runs && t.executions <= t'.executions
    && |t.identities| <= |t'.identities|
    && (forall k :: 0 <= k < |t.identities| ==> SameIdentity(t.identities[k], t'.identities[k]))
    && Grows(t.aliases, t'.aliases)
  }

  /** Everything but the file path, which a later batch may refresh. */
  predicate SameIdentity(a: TestIdentity, b: TestIdentity) {
    b == a.(filePath := b.filePath)
  }

  lemma PersistedExtends(t: Tables, b: Batch)
    requires Valid(t)
    ensures Extends(t, Persisted(t, b))
    ensures ParametersShared(t) ==> ParametersShared(Persisted(t, b))
  {
    var p := Persisted(t, b);
    AddRunFacts(t, b.metadata);
    forall k | 0 <= k < |t.identities| ensures SameIdentity(t.identities[k], p.identities[k]) {
      UpsertAllOld(t.identities, IdentitiesOf(b.cases), k);
    }
    if ParametersShared(t) {
      forall a | a in p.aliases ensures SameParameters(p.identities, a) {
        assert SameParameters(t.identities, a);
        assert SameIdentity(t.identities[a.oldId], p.identities[a.oldId]);
        assert SameIdentity(t.identities[a.newId], p.identities[a.newId]);
      }
    }
  }

  /** Every ingest keeps the store's constraints, keeps parameters shared along edges, and only extends. */
  lemma IngestKeeps(t: Tables, b: Batch, config: IdentityConfig, t': Tables, pairs: seq<Pair>)
    requires Valid(t) && Ingested(t, b, config, t', pairs)
    ensures Valid(t') && Extends(t, t')
    ensures ParametersShared(t) ==> ParametersShared(t')
  {
    var p, runPk := Persisted(t, b), RunPk(t, b.metadata);
    PersistedIsValid(t, b);
    PersistedExtends(t, b);
    ReconciledKeeps(p, runPk, config, t'.aliases, pairs);
    if ParametersShared(t) {
      forall a | a in t'.aliases ensures SameParameters(t'.identities, a) {
        assert SameParameters(p.(aliases := t'.aliases).identities, a);
      }
    }
  }

  // ---- sequences of ingests ----------------------------------------------

  ghost predicate OneIngest(t: Tables, b: Batch, config: IdentityConfig, t': Tables) {
    exists pairs :: Ingested(t, b, config, t', pairs)
  }

  /** `ts` are the tables before, between and after the batches, starting from an empty store. */
  ghost predicate IsRunOf(ts: seq<Tables>, batches: seq<Batch>, config: IdentityConfig) {
    && |ts| == |batches| + 1 && ts[0] == Empty
    && forall i :: 0 <= i < |batches| ==> OneIngest(ts[i], batches[i], config, ts[i + 1])
  }

  lemma {:induction false} OneIngestKeeps(t: Tables, b: Batch, config: IdentityConfig, t': Tables)
    requires Valid(t) && OneIngest(t, b, config, t')
    ensures Valid(t') && Extends(t, t') && (ParametersShared(t) ==> ParametersShared(t'))
  {
    var pairs :| Ingested(t, b, config, t', pairs);
    IngestKeeps(t, b, config, t', pairs);
  }

  lemma {:induction false} EveryRunIsSound(ts: seq<Tables>, batches: seq<Batch>, config: IdentityConfig, i: nat)
    requires IsRunOf(ts, batches, config) && i < |ts|
    ensures Valid(ts[i]) && ParametersShared(ts[i])
  {
    if i > 0 {
      EveryRunIsSound(ts, batches, config, i - 1);
      assert OneIngest(ts[i - 1], batches[i - 1], config, ts[i - 1 + 1]);
      OneIngestKeeps(ts[i - 1], batches[i - 1], config, ts[i]);
    }
  }

  lemma ExtendsTransitive(a: Tables, b: Tables, c: Tables)
    requires Extends(a, b) && Extends(b, c)
    ensures Extends(a, c)
  {
    forall k | 0 <= k < |a.aliases| ensures AtLeast(a.aliases[k], c.aliases[k]) {
      assert AtLeast(a.aliases[k], b.aliases[k]) && AtLeast(b.aliases[k], c.aliases[k]);
    }
    forall k | 0 <= k < |a.identities| ensures SameIdentity(a.identities[k], c.identities[k]) {
      assert SameIdentity(a.identities[k], b.identities[k]) && SameIdentity(b.identities[k], c.identities[k]);
    }
  }

  lemma ExtendsItself(t: Tables)
    ensures Extends(t, t)
  {
    forall k | 0 <= k < |t.aliases| ensures AtLeast(t.aliases[k], t.aliases[k]) {
    }
  }

  lemma RunStep(ts: seq<Tables>, batches: seq<Batch>, config: IdentityConfig, i: nat)
    requires IsRunOf(ts, batches, config) && i < |batches|
    ensures Extends(ts[i], ts[i + 1])
  {
    EveryRunIsSound(ts, batches, config, i);
    assert OneIngest(ts[i], batches[i], config, ts[i + 1]);
    OneIngestKeeps(ts[i], batches[i], config, ts[i + 1]);
  }

  ghost predicate StepsExtend(ts: seq<Tables>) {
    forall i :: 0 < i < |ts| ==> Extends(ts[i - 1], ts[i])
  }

  lemma {:induction false} StepsCompose(ts: seq<Tables>, i: nat, j: nat)
    requires StepsExtend(ts) && i <= j < |ts|
    ensures Extends(ts[i], ts[j])
    decreases j
  {
    if i < j {
      StepsCompose(ts, i, j - 1);
      ExtendsTransitive(ts[i], ts[j - 1], ts[j]);
    } else {
      ExtendsItself(ts[i]);
    }
  }

  lemma {:induction false} RunStepsExtend(ts: seq<Tables>, batches: seq<Batch>, config: IdentityConfig)
    requires IsRunOf(ts, batches, config)
    ensures StepsExtend(ts)
  {
    forall k | 0 < k < |ts| ensures Extends(ts[k - 1], ts[k]) {
      RunStep(ts, batches, config, k - 1);
    }
  }

  lemma {:induction false} EveryRunExtends(ts: seq<Tables>, batches: seq<Batch>, config: IdentityConfig, i: nat, j: nat)
    requires IsRunOf(ts, batches, config) && i <= j < |ts|
    ensures Extends(ts[i], ts[j])
  {
    RunStepsExtend(ts, batches, config);
    StepsCompose(ts, i, j);
  }

  /** Over every sequence of ingests: one execution per run and identity, one parameters value per
      group, groups that only grow, and certain edges that stay certain. */
  lemma GroupsOverRuns(ts: seq<Tables>, batches: seq<Batch>, config: IdentityConfig, i: nat, j: nat, a: nat, b: nat)
    requires IsRunOf(ts, batches, config) && i <= j < |ts|
    requires a < |ts[i].identities| && Connected(ts[i].aliases, a, b)
    ensures UniqueExecutions(ts[j].executions)
    ensures Connected(ts[j].aliases, a, b)
    ensures b < |ts[j].identities| && a < |ts[j].identities|
    ensures ts[j].identities[a].parameters == ts[j].identities[b].parameters
    ensures forall e :: e in ts[i].aliases && e.certain ==>
      exists e' :: e' in ts[j].aliases && SameAlias(e, e') && e'.certain
  {
    EveryRunIsSound(ts, batches, config, j);
    EveryRunExtends(ts, batches, config, i, j);
    GroupsGrow(ts[i].aliases, ts[j].aliases, a, b);
    GroupSharesParameters(ts[j], a, b);
    forall e | e in ts[i].aliases && e.certain
      ensures exists e' :: e' in ts[j].aliases && SameAlias(e, e') && e'.certain
    {
      var k :| 0 <= k < |ts[i].aliases| && ts[i].aliases[k] == e;
      assert AtLeast(ts[i].aliases[k], ts[j].aliases[k]);
      assert ts[j].aliases[k] in ts[j].aliases;
    }
  }

  // ---- a rename keeps its history ----------------------------------------

  /** The store knows one test, which has run before the batch's run started, and the batch is a new
      run of one new test that the rename rules allow to be the old one. */
  ghost predicate RenamedOnly(t: Tables, b: Batch, config: IdentityConfig) {
    && Valid(t) && |t.identities| == 1 && t.aliases == []
    && |b.cases| == 1 && b.cases[0].identity.fingerprint != t.identities[0].fingerprint
    && FindRun(t.runs, MakeRun(b.metadata)) == |t.runs|
    && Eligible(t.identities[0], b.cases[0].identity, config)
    && exists e :: e in t.executions && t.runs[e.runPk].startedAt < b.metadata.startedAt
  }

  lemma PersistedRename(t: Tables, b: Batch, config: IdentityConfig)
    requires RenamedOnly(t, b, config)
    ensures var p := Persisted(t, b);
      && RunPk(t, b.metadata) == |t.runs| && p.runs == t.runs + [MakeRun(b.metadata)]
      && p.identities == t.identities + [b.cases[0].identity]
      && p.executions == t.executions + [ExecutionRow(|t.runs|, 1, b.cases[0].result)]
      && p.aliases == []
  {
    var ids := IdentitiesOf(b.cases);
    var f := b.cases[0].identity.fingerprint;
    assert ids[..0] == [] && ids[|ids| - 1] == b.cases[0].identity;
    assert UpsertAll(t.identities, ids) == Upsert(UpsertAll(t.identities, ids[..0]), ids[0]);
    assert FindIdentity(t.identities, f) == 1;
    var p := Persisted(t, b);
    assert p.identities == t.identities + [b.cases[0].identity];
    var at := FindIdentity(p.identities, f);
    assert p.identities[1].fingerprint == f && p.identities[0] == t.identities[0];
    assert at == 1;
    var rows := RowsOf(p.identities, |t.runs|, b.cases);
    assert rows == [ExecutionRow(|t.runs|, 1, b.cases[0].result)];
    assert rows[..0] == [];
    assert !HasExecution(t.executions, rows[0]);
    assert AddExecutions(t.executions, rows) == AddExecution(AddExecutions(t.executions, rows[..0]), rows[0]);
  }

  lemma SingletonSeq(ids: seq<nat>, x: nat)
    requires Sorting.NoRepeats(ids) && forall y :: y in ids <==> y == x
    ensures ids == [x]
  {
    assert |ids| > 1 ==> ids[0] != ids[1];
    assert forall k :: 0 <= k < |ids| ==> ids[k] in ids;
    assert x in ids;
  }

  /** What the two queries see of a store holding one old test and one new execution. */
  lemma TwoTests(runs: seq<RunRow>, executions: seq<ExecutionRow>, run: RunRow, last: ExecutionRow, e: ExecutionRow)
    requires forall x :: x in executions ==> x.runPk < |runs| && x.identityId == 0
    requires e in executions && runs[e.runPk].startedAt < run.startedAt
    requires last.runPk == |runs| && last.identityId == 1
    ensures CurrentIds(executions + [last], |runs|) == {1}
    ensures SeenBefore(runs + [run], executions + [last], 0, |runs|)
    ensures !SeenBefore(runs + [run], executions + [last], 1, |runs|)
  {
    var all := executions + [last];
    assert last in all;
    assert forall x :: x in all <==> x in executions || x == last;
    assert Earlier(runs + [run], e, |runs|);
  }

  lemma SidesById(t: Tables, runPk: nat)
    requires ForeignKeys(t) && |t.identities| == 2
    requires CurrentIds(t.executions, runPk) == {1}
    requires SeenBefore(t.runs, t.executions, 0, runPk) && !SeenBefore(t.runs, t.executions, 1, runPk)
    ensures Disappeared(t, runPk) == [t.identities[0]] && Appeared(t, runPk) == [t.identities[1]]
  {
    IdsAre(t, runPk);
    var d, a := DisappearedIds(t, runPk), AppearedIds(t, runPk);
    Halves(d, a);
    SingletonSeq(d, 0);
    SingletonSeq(a, 1);
    IdentitiesAtAre(t.identities, [0]);
    IdentitiesAtAre(t.identities, [1]);
  }

  lemma RenameSides(t: Tables, b: Batch, config: IdentityConfig)
    requires RenamedOnly(t, b, config)
    ensures Disappeared(Persisted(t, b), |t.runs|) == [t.identities[0]]
    ensures Appeared(Persisted(t, b), |t.runs|) == [b.cases[0].identity]
  {
    PersistedRename(t, b, config);
    PersistedIsValid(t, b);
    var e :| e in t.executions && t.runs[e.runPk].startedAt < b.metadata.startedAt;
    TwoTests(t.runs, t.executions, MakeRun(b.metadata), ExecutionRow(|t.runs|, 1, b.cases[0].result), e);
    SidesById(Persisted(t, b), |t.runs|);
  }

  lemma Halves(a: seq<nat>, b: seq<nat>)
    requires Sorting.NoRepeats(a + b)
    ensures Sorting.NoRepeats(a) && Sorting.NoRepeats(b)
  {
    forall i, j | 0 <= i < j < |a| ensures a[i] != a[j] {
      assert (a + b)[i] == a[i] && (a + b)[j] == a[j];
    }
    forall i, j | 0 <= i < j < |b| ensures b[i] != b[j] {
      assert (a + b)[|a| + i] == b[i] && (a + b)[|a| + j] == b[j];
    }
  }

  lemma OnePairOutcome(x: TestIdentity, y: TestIdentity, config: IdentityConfig, pairs: seq<Pair>)
    requires Eligible(x, y, config) && IsOutcome(Scored([x], [y], config), pairs)
    ensures pairs == [MakePair(x, y, config)]
  {
    var p := MakePair(x, y, config);
    Alias.ScoredOne(x, y, config);
    assert Live(Scored([x], [y], config), p);
    assert Accepted(Scored([x], [y], config), p);
    assert StrictlyOrdered([p]);
    OrderedListUnique(pairs, [p]);
  }

  /** The records are every stored execution, each exactly once. */
  ghost predicate Covers(t: Tables, records: seq<ExecutionRecord>) {
    && |records| == |t.executions|
    && (forall i :: 0 <= i < |t.executions| ==> t.executions[i].runPk < |t.runs|)
    && (forall i :: 0 <= i < |t.executions| ==> RecordAt(t.runs, t.executions, i) in records)
  }

  /** A rename within the ceiling keeps its history: the new name's group is both tests, and its merged
      history is every execution there is, the old test's and the new one's, each exactly once. */
  lemma RenameKeepsHistory(t: Tables, b: Batch, config: IdentityConfig, t': Tables, pairs: seq<Pair>)
    requires RenamedOnly(t, b, config) && Ingested(t, b, config, t', pairs)
    ensures t'.executions == t.executions + [ExecutionRow(|t.runs|, 1, b.cases[0].result)]
    ensures Component(t'.aliases, 1) == {0, 1} == Component(t'.aliases, 0)
    ensures Covers(t', NewestOf(t', Component(t'.aliases, 1), None))
  {
    var x, y := t.identities[0], b.cases[0].identity;
    PersistedRename(t, b, config);
    RenameSides(t, b, config);
    OnePairOutcome(x, y, config, pairs);
    IngestKeeps(t, b, config, t', pairs);
    var c := Alias.MakeCandidate(pairs[0], config);
    var p := Persisted(t, b);
    var rows := RowsFor(p.identities, Alias.Candidates(pairs, config), |t.runs|);
    assert rows == [RowFor(p.identities, c, |t.runs|)];
    assert rows[..0] == [];
    assert t'.aliases == AddAlias(AddAliases([], rows[..0]), rows[0]);
    assert FindIdentity(p.identities, x.fingerprint) == 0 && FindIdentity(p.identities, y.fingerprint) == 1 by {
      assert p.identities[0] == x && p.identities[1] == y;
    }
    PairComponent(t'.aliases, rows[0]);
    AllInHistory(t');
  }

  lemma PairComponent(aliases: seq<AliasRow>, row: AliasRow)
    requires aliases == [row] && row.oldId == 0 && row.newId == 1
    ensures Component(aliases, 1) == {0, 1} == Component(aliases, 0)
  {
    ComponentIsConnected(aliases, 0);
    ComponentIsConnected(aliases, 1);
    ConnectedSelf(aliases, 0);
    ConnectedSelf(aliases, 1);
    assert row in aliases && Joins(row, 0, 1) && Joins(row, 1, 0);
    ConnectedStep(aliases, 0, 0, 1);
    ConnectedStep(aliases, 1, 1, 0);
    assert Universe(aliases, 0) == {0, 1} == Universe(aliases, 1);
  }

  lemma {:induction false} RowsAll(runs: seq<RunRow>, executions: seq<ExecutionRow>, keep: set<nat>, n: nat)
    requires n <= |executions|
    requires forall i :: 0 <= i < n ==> Selects(runs, executions[i], keep)
    ensures |Rows(runs, executions, keep, n)| == n
  {
    if n > 0 { RowsAll(runs, executions, keep, n - 1); }
  }

  lemma AllInHistory(t: Tables)
    requires Valid(t) && |t.identities| == 2
    ensures Covers(t, NewestOf(t, {0, 1}, None))
  {
    var rows := AllRows(t, {0, 1});
    forall i | 0 <= i < |t.executions| ensures Selects(t.runs, t.executions[i], {0, 1}) {
      assert t.executions[i] in t.executions;
    }
    RowsAll(t.runs, t.executions, {0, 1}, |t.executions|);
    Sorting.SortElements(rows, NewerFirst);
    Sorting.SameElements(NewestOf(t, {0, 1}, None), rows);
    forall i | 0 <= i < |t.executions| ensures RecordAt(t.runs, t.executions, i) in NewestOf(t, {0, 1}, None) {
      RowsComplete(t.runs, t.executions, {0, 1}, |t.executions|, i);
    }
  }
}

/** What a rename that was once accepted means for the history of the test, then and at every later time. */
module RenameLaws {
  import opened Models
  import opened Tables
  import opened AliasGraph
  import opened Renames
  import opened Store
  import opened Reconcile
  import opened Ingest
  import opened IngestLaws
  import Alias
  import Sorting

  /** The two ids are the rows of the pair's identities. */
  predicate RowsOfPair(t: Tables, p: Pair, before: nat, after: nat) {
    && before < |t.identities| && after < |t.identities|
    && t.identities[before].fingerprint == p.before.fingerprint
    && t.identities[after].fingerprint == p.after.fingerprint
  }

  // ---- the merged history ------------------------------------------------

  lemma {:induction false} RowsApart(runs: seq<RunRow>, executions: seq<ExecutionRow>, keep: set<nat>, n: nat)
    requires n <= |executions|
    ensures Sorting.NoRepeats(Rows(runs, executions, keep, n))
  {
    if n > 0 {
      RowsApart(runs, executions, keep, n - 1);
      RowsAreRecords(runs, executions, keep, n - 1);
      if Selects(runs, executions[n - 1], keep) {
        Sorting.JoinWithoutRepeats(Rows(runs, executions, keep, n - 1), [RecordAt(runs, executions, n - 1)]);
      }
    }
  }

  ghost predicate InHistory(t: Tables, id: nat, i: nat)
    requires Valid(t) && i < |t.executions|
  {
    assert t.executions[i] in t.executions;
    RecordAt(t.runs, t.executions, i) in MergedHistory(t, id)
  }

  /** The merged history of an identity holds exactly the executions of the identities connected to it, once each. */
  lemma {:induction false} HistoryIs(t: Tables, id: nat)
    requires Valid(t)
    ensures forall i: nat :: i < |t.executions| ==>
      (InHistory(t, id, i) <==> Connected(t.aliases, id, t.executions[i].identityId))
    ensures Sorting.NoRepeats(MergedHistory(t, id))
  {
    var keep := Component(t.aliases, id);
    var rows := AllRows(t, keep);
    ComponentIsConnected(t.aliases, id);
    RowsApart(t.runs, t.executions, keep, |t.executions|);
    RowsAreRecords(t.runs, t.executions, keep, |t.executions|);
    Sorting.SortElements(rows, NewerFirst);
    Sorting.ReorderWithoutRepeats(rows, MergedHistory(t, id));
    Sorting.SameElements(MergedHistory(t, id), rows);
    forall i: nat | i < |t.executions|
      ensures InHistory(t, id, i) <==> Connected(t.aliases, id, t.executions[i].identityId)
    {
      assert t.executions[i] in t.executions;
      if t.executions[i].identityId in keep { RowsComplete(t.runs, t.executions, keep, |t.executions|, i); }
    }
  }

  // ---- one ingest --------------------------------------------------------

  lemma {:induction false} AbsorbedJoins(aliases: seq<AliasRow>, row: AliasRow)
    requires Absorbs(aliases, row)
    ensures Connected(aliases, row.newId, row.oldId)
  {
    var i :| 0 <= i < |aliases| && SameAlias(aliases[i], row);
    assert aliases[i] in aliases && Joins(aliases[i], row.newId, row.oldId);
    ConnectedSelf(aliases, row.newId);
    ConnectedStep(aliases, row.newId, row.newId, row.oldId);
  }

  /** Every pair that an ingest accepts joins two stored identities. */
  lemma {:induction false} AcceptedIsConnected(t: Tables, b: Batch, config: IdentityConfig, t': Tables,
                                               pairs: seq<Pair>, p: Pair) returns (before: nat, after: nat)
    requires Valid(t) && Ingested(t, b, config, t', pairs) && p in pairs
    ensures RowsOfPair(t', p, before, after) && before != after
    ensures Connected(t'.aliases, after, before)
  {
    var mid, runPk := Persisted(t, b), RunPk(t, b.metadata);
    var rows := RowsFor(mid.identities, Alias.Candidates(pairs, config), runPk);
    before, after := FindIdentity(mid.identities, p.before.fingerprint),
      FindIdentity(mid.identities, p.after.fingerprint);
    PersistedIsValid(t, b);
    AcceptedRespectsRules(Disappeared(mid, runPk), Appeared(mid, runPk), config, p);
    RowOfMember(mid.identities, DisappearedIds(mid, runPk), p.before);
    RowOfMember(mid.identities, AppearedIds(mid, runPk), p.after);
    SidesAreSeparate(mid, runPk);
    SidesDiffer(Disappeared(mid, runPk), Appeared(mid, runPk), p.before, p.after);
    var k :| 0 <= k < |pairs| && pairs[k] == p;
    assert rows[k] == RowFor(mid.identities, Alias.MakeCandidate(p, config), runPk);
    assert rows[k] in rows;
    AddAliasesGrow(mid.aliases, rows);
    AbsorbedJoins(t'.aliases, rows[k]);
  }

  lemma {:induction false} SidesDiffer(d: seq<TestIdentity>, a: seq<TestIdentity>, x: TestIdentity, y: TestIdentity)
    requires Alias.Separate(d, a) && x in d && y in a
    ensures x.fingerprint != y.fingerprint
  {
    var i :| 0 <= i < |d| && d[i] == x;
    var j :| 0 <= j < |a| && a[j] == y;
    assert (d + a)[i] == x && (d + a)[|d| + j] == y;
  }

  // ---- at every later time -----------------------------------------------

  lemma {:induction false} StillRows(t: Tables, t': Tables, p: Pair, before: nat, after: nat)
    requires Extends(t, t') && RowsOfPair(t, p, before, after)
    ensures RowsOfPair(t', p, before, after)
  {
    assert SameIdentity(t.identities[before], t'.identities[before]);
    assert SameIdentity(t.identities[after], t'.identities[after]);
  }

  /** The two have one merged history, with every execution of both in it, once each. */
  ghost predicate ShareHistory(t: Tables, before: nat, after: nat)
    requires Valid(t)
  {
    && MergedHistory(t, before) == MergedHistory(t, after) && Sorting.NoRepeats(MergedHistory(t, after))
    && forall k: nat :: k < |t.executions| && t.executions[k].identityId in {before, after} ==> InHistory(t, after, k)
  }

  lemma {:induction false} ConnectedShare(t: Tables, before: nat, after: nat)
    requires Valid(t) && Connected(t.aliases, after, before)
    ensures ShareHistory(t, before, after)
  {
    HistoryIs(t, after);
    ConnectedSelf(t.aliases, after);
    ConnectedSelf(t.aliases, before);
    GroupsPartition(t.aliases, after, before, before);
    ComponentIsConnected(t.aliases, after);
    ComponentIsConnected(t.aliases, before);
    assert Component(t.aliases, after) == Component(t.aliases, before);
  }

  lemma {:induction false} StillConnected(t: Tables, t': Tables, p: Pair, before: nat, after: nat)
    requires Extends(t, t') && RowsOfPair(t, p, before, after) && Connected(t.aliases, after, before)
    ensures RowsOfPair(t', p, before, after) && Connected(t'.aliases, after, before)
  {
    StillRows(t, t', p, before, after);
    GroupsGrow(t.aliases, t'.aliases, after, before);
  }

  lemma {:induction false} AcceptedShares(t: Tables, b: Batch, config: IdentityConfig, t': Tables, later: Tables,
                                          pairs: seq<Pair>, p: Pair) returns (before: nat, after: nat)
    requires Valid(t) && Ingested(t, b, config, t', pairs) && p in pairs
    requires Extends(t', later) && Valid(later)
    ensures RowsOfPair(later, p, before, after) && before != after && ShareHistory(later, before, after)
  {
    before, after := AcceptedIsConnected(t, b, config, t', pairs, p);
    StillConnected(t', later, p, before, after);
    ConnectedShare(later, before, after);
  }

  lemma {:induction false} RunFacts(ts: seq<Tables>, batches: seq<Batch>, config: IdentityConfig, i: nat, j: nat)
    requires IsRunOf(ts, batches, config) && i < j < |ts|
    ensures Valid(ts[i]) && Valid(ts[j]) && Extends(ts[i + 1], ts[j])
  {
    EveryRunIsSound(ts, batches, config, i);
    EveryRunIsSound(ts, batches, config, j);
    EveryRunExtends(ts, batches, config, i + 1, j);
  }

  /** A rename keeps its history for good: once an ingest accepts a pair, then at that time and after any further
      ingests the two identities share one merged history of both. */
  lemma {:induction false} RenamedForGood(ts: seq<Tables>, batches: seq<Batch>, config: IdentityConfig, i: nat, j: nat,
                                          pairs: seq<Pair>, p: Pair) returns (before: nat, after: nat)
    requires IsRunOf(ts, batches, config) && i < j < |ts|
    requires Ingested(ts[i], batches[i], config, ts[i + 1], pairs) && p in pairs
    ensures Valid(ts[j]) && RowsOfPair(ts[j], p, before, after) && before != after
    ensures ShareHistory(ts[j], before, after)
  {
    RunFacts(ts, batches, config, i, j);
    before, after := AcceptedShares(ts[i], batches[i], config, ts[i + 1], ts[j], pairs, p);
  }
}

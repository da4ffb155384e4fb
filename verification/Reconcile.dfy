/** identity/reconcile.py: rename detection wired to the store. */
module Reconcile {
  import opened Models
  import opened Tables
  import opened AliasGraph
  import opened Renames
  import opened Store
  import Alias
  import Sorting

  /** The identity rows behind `ids`; ids without a row are dropped. */
  function IdentitiesAt(identities: seq<TestIdentity>, ids: seq<nat>): seq<TestIdentity> {
    if ids == [] then []
    else
      var rest := IdentitiesAt(identities, ids[1..]);
      if ids[0] < |identities| then [identities[ids[0]]] + rest else rest
  }

  function Without(ids: seq<nat>, gone: set<nat>): (kept: seq<nat>) {
    if ids == [] then []
    else if ids[0] in gone then Without(ids[1..], gone)
    else [ids[0]] + Without(ids[1..], gone)
  }

  /** Ids with history but no execution in the run. */
  function DisappearedIds(t: Tables, runPk: nat): seq<nat> {
    Without(IdentitiesBefore(t.runs, t.executions, runPk, |t.identities|), CurrentIds(t.executions, runPk))
  }

  /** Ids executed in the run with no history before it. */
  function AppearedIds(t: Tables, runPk: nat): seq<nat> {
    SortedSet(CurrentIds(t.executions, runPk) - Members(IdentitiesBefore(t.runs, t.executions, runPk, |t.identities|)))
  }

  function Disappeared(t: Tables, runPk: nat): seq<TestIdentity> {
    IdentitiesAt(t.identities, DisappearedIds(t, runPk))
  }

  function Appeared(t: Tables, runPk: nat): seq<TestIdentity> { IdentitiesAt(t.identities, AppearedIds(t, runPk)) }

  function RowFor(identities: seq<TestIdentity>, c: Candidate, runPk: nat): AliasRow {
    AliasRow(FindIdentity(identities, c.oldFingerprint), FindIdentity(identities, c.newFingerprint),
             1.0 - c.distance, c.certain, runPk)
  }

  function RowsFor(identities: seq<TestIdentity>, cs: seq<Candidate>, runPk: nat): (rows: seq<AliasRow>)
    ensures |rows| == |cs|
  {
    seq(|cs|, k requires 0 <= k < |cs| => RowFor(identities, cs[k], runPk))
  }

  predicate HasRows(identities: seq<TestIdentity>, c: Candidate) {
    && FindIdentity(identities, c.oldFingerprint) < |identities|
    && FindIdentity(identities, c.newFingerprint) < |identities|
  }

  /** The candidates whose two fingerprints have rows. */
  function Known(identities: seq<TestIdentity>, cs: seq<Candidate>): seq<Candidate> {
    if cs == [] then []
    else
      var rest, last := Known(identities, cs[..|cs| - 1]), cs[|cs| - 1];
      if HasRows(identities, last) then rest + [last] else rest
  }

  /** The aliases after reconciling `runPk`, with the accepted pairs that explain them. */
  ghost predicate Reconciled(t: Tables, runPk: nat, config: IdentityConfig, aliases: seq<AliasRow>, pairs: seq<Pair>) {
    && IsOutcome(Scored(Disappeared(t, runPk), Appeared(t, runPk), config), pairs)
    && aliases == AddAliases(t.aliases, RowsFor(t.identities, Alias.Candidates(pairs, config), runPk))
  }

  // ---- the two sides are separate ----------------------------------------

  lemma {:induction false} WithoutKeeps(ids: seq<nat>, gone: set<nat>)
    ensures forall x :: x in Without(ids, gone) <==> x in ids && x !in gone
    ensures Sorting.NoRepeats(ids) ==> Sorting.NoRepeats(Without(ids, gone))
  {
    if ids != [] {
      WithoutKeeps(ids[1..], gone);
      if Sorting.NoRepeats(ids) {
        var rest := Without(ids[1..], gone);
        forall x | x in rest ensures x != ids[0] {
          var k :| 0 <= k < |ids[1..]| && ids[1..][k] == x;
          assert ids[k + 1] == x;
        }
        Sorting.JoinWithoutRepeats([ids[0]], rest);
      }
    }
  }

  lemma {:induction false} IdentitiesAtAre(identities: seq<TestIdentity>, ids: seq<nat>)
    requires forall x :: x in ids ==> x < |identities|
    ensures |IdentitiesAt(identities, ids)| == |ids|
    ensures forall k :: 0 <= k < |ids| ==> ids[k] in ids && IdentitiesAt(identities, ids)[k] == identities[ids[k]]
  {
    if ids != [] {
      assert forall x :: x in ids[1..] ==> x in ids;
      assert ids[0] in ids;
      IdentitiesAtAre(identities, ids[1..]);
    }
  }

  lemma IdsAre(t: Tables, runPk: nat)
    requires ForeignKeys(t)
    ensures forall x: nat :: x in DisappearedIds(t, runPk) <==>
      x < |t.identities| && SeenBefore(t.runs, t.executions, x, runPk) && x !in CurrentIds(t.executions, runPk)
    ensures forall x: nat :: x in AppearedIds(t, runPk) <==>
      x in CurrentIds(t.executions, runPk) && !SeenBefore(t.runs, t.executions, x, runPk)
    ensures forall x :: x in AppearedIds(t, runPk) ==> x < |t.identities|
    ensures Sorting.NoRepeats(DisappearedIds(t, runPk) + AppearedIds(t, runPk))
  {
    var before := IdentitiesBefore(t.runs, t.executions, runPk, |t.identities|);
    var current := CurrentIds(t.executions, runPk);
    IdentitiesBeforeAre(t.runs, t.executions, runPk, |t.identities|);
    WithoutKeeps(before, current);
    SortedSetElements(current - Members(before));
    assert forall x :: x in current ==> x < |t.identities|;
    Sorting.JoinWithoutRepeats(DisappearedIds(t, runPk), AppearedIds(t, runPk));
  }

  lemma SidesAreSeparate(t: Tables, runPk: nat)
    requires Valid(t)
    ensures Alias.Separate(Disappeared(t, runPk), Appeared(t, runPk))
  {
    IdsAre(t, runPk);
    var d, a := DisappearedIds(t, runPk), AppearedIds(t, runPk);
    IdentitiesAtAre(t.identities, d);
    IdentitiesAtAre(t.identities, a);
    DistinctRows(t.identities, d, a, Disappeared(t, runPk), Appeared(t, runPk));
  }

  lemma DistinctRows(identities: seq<TestIdentity>, d: seq<nat>, a: seq<nat>, ds: seq<TestIdentity>,
                     as': seq<TestIdentity>)
    requires UniqueFingerprints(identities) && Sorting.NoRepeats(d + a)
    requires |ds| == |d| && |as'| == |a|
    requires forall k :: 0 <= k < |d| ==> d[k] < |identities| && ds[k] == identities[d[k]]
    requires forall k :: 0 <= k < |a| ==> a[k] < |identities| && as'[k] == identities[a[k]]
    ensures Alias.Separate(ds, as')
  {
    var ids, all := d + a, ds + as';
    forall i, j | 0 <= i < j < |all| ensures all[i].fingerprint != all[j].fingerprint {
      assert ids[i] != ids[j];
      assert all[i] == identities[ids[i]] && all[j] == identities[ids[j]];
    }
  }

  // ---- the method --------------------------------------------------------

  lemma {:induction false} RowsForSnoc(identities: seq<TestIdentity>, cs: seq<Candidate>, c: Candidate, runPk: nat)
    ensures RowsFor(identities, cs + [c], runPk) == RowsFor(identities, cs, runPk) + [RowFor(identities, c, runPk)]
  {
  }

  lemma {:induction false} AddAliasesSnoc(aliases: seq<AliasRow>, rows: seq<AliasRow>, row: AliasRow)
    ensures AddAliases(aliases, rows + [row]) == AddAlias(AddAliases(aliases, rows), row)
  {
    assert (rows + [row])[..|rows|] == rows;
  }

  /** A candidate without a row is passed over. */
  method RecordCandidate(store: RunStore, c: Candidate, runPk: nat) returns (written: bool)
    modifies store`aliases
    ensures written == HasRows(store.identities, c)
    ensures store.aliases ==
      if written then AddAlias(old(store.aliases), RowFor(store.identities, c, runPk)) else old(store.aliases)
  {
    var oldId := FindIdentity(store.identities, c.oldFingerprint);
    var newId := FindIdentity(store.identities, c.newFingerprint);
    written := oldId < |store.identities| && newId < |store.identities|;
    if written {
      var _ := store.RecordAlias(oldId, newId, 1.0 - c.distance, c.certain, runPk);
    }
  }

  method RecordCandidates(store: RunStore, candidates: seq<Candidate>, runPk: nat) returns (recorded: seq<Candidate>)
    modifies store`aliases
    ensures recorded == Known(store.identities, candidates)
    ensures store.aliases == AddAliases(old(store.aliases), RowsFor(store.identities, recorded, runPk))
  {
    recorded := [];
    ghost var before := store.aliases;
    for k := 0 to |candidates|
      invariant recorded == Known(store.identities, candidates[..k])
      invariant store.aliases == AddAliases(before, RowsFor(store.identities, recorded, runPk))
    {
      assert candidates[..k + 1][..k] == candidates[..k];
      var written := RecordCandidate(store, candidates[k], runPk);
      if written {
        RowsForSnoc(store.identities, recorded, candidates[k], runPk);
        AddAliasesSnoc(before, RowsFor(store.identities, recorded, runPk),
          RowFor(store.identities, candidates[k], runPk));
        recorded := recorded + [candidates[k]];
      }
    }
    assert candidates[..|candidates|] == candidates;
  }

  lemma {:induction false} KnownAll(identities: seq<TestIdentity>, cs: seq<Candidate>)
    requires forall c :: c in cs ==> HasRows(identities, c)
    ensures Known(identities, cs) == cs
  {
    if cs != [] {
      KnownAll(identities, cs[..|cs| - 1]);
      assert cs[|cs| - 1] in cs;
      assert cs == cs[..|cs| - 1] + [cs[|cs| - 1]];
    }
  }

  /** Every candidate of a reconciliation joins two stored identities, so none is passed over. */
  lemma {:induction false} CandidatesAreKnown(t: Tables, runPk: nat, config: IdentityConfig, pairs: seq<Pair>)
    requires forall p :: p in pairs ==> p in Scored(Disappeared(t, runPk), Appeared(t, runPk), config)
    ensures Known(t.identities, Alias.Candidates(pairs, config)) == Alias.Candidates(pairs, config)
  {
    var cs := Alias.Candidates(pairs, config);
    forall c | c in cs ensures HasRows(t.identities, c) {
      var k :| 0 <= k < |cs| && cs[k] == c;
      assert pairs[k] in pairs;
      RowOfMember(t.identities, DisappearedIds(t, runPk), pairs[k].before);
      RowOfMember(t.identities, AppearedIds(t, runPk), pairs[k].after);
    }
    KnownAll(t.identities, cs);
  }

  method ReconcileRenames(store: RunStore, runPk: nat, config: IdentityConfig)
    returns (recorded: seq<Candidate>, ghost pairs: seq<Pair>)
    requires Valid(store.View())
    modifies store`aliases
    ensures Reconciled(old(store.View()), runPk, config, store.aliases, pairs)
    ensures recorded == Alias.Candidates(pairs, config)
  {
    ghost var t := store.View();
    var current := CurrentIds(store.executions, runPk);
    if current == {} {
      NothingCurrent(t, runPk, config);
      return [], [];
    }
    var previous := IdentitiesBefore(store.runs, store.executions, runPk, |store.identities|);
    var disappeared := IdentitiesAt(store.identities, Without(previous, current));
    var appeared := IdentitiesAt(store.identities, SortedSet(current - Members(previous)));
    SidesAreSeparate(t, runPk);
    var candidates;
    candidates, pairs := Alias.DetectRenames(disappeared, appeared, config);
    if candidates == [] {
      return [], pairs;
    }
    CandidatesAreKnown(t, runPk, config, pairs);
    recorded := RecordCandidates(store, candidates, runPk);
  }

  lemma NothingCurrent(t: Tables, runPk: nat, config: IdentityConfig)
    requires CurrentIds(t.executions, runPk) == {}
    ensures Reconciled(t, runPk, config, t.aliases, [])
  {
    assert AppearedIds(t, runPk) == [];
    assert Scored(Disappeared(t, runPk), Appeared(t, runPk), config) == {};
  }

  // ---- what reconciliation keeps -----------------------------------------

  predicate SameParameters(identities: seq<TestIdentity>, a: AliasRow) {
    && a.oldId < |identities| && a.newId < |identities|
    && identities[a.oldId].parameters == identities[a.newId].parameters
  }

  /** Every stored edge joins two identities with the same parameters. */
  ghost predicate ParametersShared(t: Tables) {
    forall a :: a in t.aliases ==> SameParameters(t.identities, a)
  }

  lemma RowOfMember(identities: seq<TestIdentity>, ids: seq<nat>, x: TestIdentity)
    requires x in IdentitiesAt(identities, ids)
    ensures x in identities
    ensures FindIdentity(identities, x.fingerprint) < |identities|
    ensures UniqueFingerprints(identities) ==> identities[FindIdentity(identities, x.fingerprint)] == x
  {
    MemberOfTable(identities, ids, x);
    var k :| 0 <= k < |identities| && identities[k] == x;
  }

  lemma {:induction false} MemberOfTable(identities: seq<TestIdentity>, ids: seq<nat>, x: TestIdentity)
    requires x in IdentitiesAt(identities, ids)
    ensures x in identities
  {
    if ids[0] < |identities| && x == identities[ids[0]] {
    } else {
      MemberOfTable(identities, ids[1..], x);
    }
  }

  /** A recorded row joins the rows of an accepted pair. */
  lemma RowFacts(t: Tables, runPk: nat, config: IdentityConfig, pairs: seq<Pair>, row: AliasRow)
    requires Valid(t)
    requires IsOutcome(Scored(Disappeared(t, runPk), Appeared(t, runPk), config), pairs)
    requires row in RowsFor(t.identities, Alias.Candidates(pairs, config), runPk)
    ensures row.oldId < |t.identities| && row.newId < |t.identities|
    ensures t.identities[row.oldId].parameters == t.identities[row.newId].parameters
    ensures exists p :: p in pairs && t.identities[row.oldId] == p.before && t.identities[row.newId] == p.after
  {
    var k :| 0 <= k < |pairs| && row == RowFor(t.identities, Alias.MakeCandidate(pairs[k], config), runPk);
    var p := pairs[k];
    assert p in pairs;
    AcceptedRespectsRules(Disappeared(t, runPk), Appeared(t, runPk), config, p);
    RowOfMember(t.identities, DisappearedIds(t, runPk), p.before);
    RowOfMember(t.identities, AppearedIds(t, runPk), p.after);
  }

  lemma ReconciledKeeps(t: Tables, runPk: nat, config: IdentityConfig, aliases: seq<AliasRow>, pairs: seq<Pair>)
    requires Valid(t) && Reconciled(t, runPk, config, aliases, pairs)
    ensures Valid(t.(aliases := aliases))
    ensures ParametersShared(t) ==> ParametersShared(t.(aliases := aliases))
    ensures Grows(t.aliases, aliases)
  {
    var rows := RowsFor(t.identities, Alias.Candidates(pairs, config), runPk);
    AddAliasesGrow(t.aliases, rows);
    forall a | a in aliases
      ensures a.oldId < |t.identities| && a.newId < |t.identities|
      ensures ParametersShared(t) ==> SameParameters(t.identities, a)
    {
      var b := AddAliasesFrom(t.aliases, rows, a);
      if b in rows { RowFacts(t, runPk, config, pairs, b); }
    }
  }

  /** All members of an identity group share one `parameters` value. */
  lemma {:induction false} WalkSharesParameters(t: Tables, p: seq<nat>, a: nat, b: nat)
    requires ParametersShared(t) && WalkBetween(t.aliases, p, a, b) && a < |t.identities|
    ensures b < |t.identities| && t.identities[a].parameters == t.identities[b].parameters
    decreases |p|
  {
    if |p| > 1 {
      var r :| r in t.aliases && Joins(r, p[0], p[1]);
      WalkSharesParameters(t, p[1..], p[1], b);
    }
  }

  lemma GroupSharesParameters(t: Tables, a: nat, b: nat)
    requires ParametersShared(t) && Connected(t.aliases, a, b) && a < |t.identities|
    ensures b < |t.identities| && t.identities[a].parameters == t.identities[b].parameters
  {
    var p :| WalkBetween(t.aliases, p, a, b);
    WalkSharesParameters(t, p, a, b);
  }
}

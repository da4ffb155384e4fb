/** identity/alias.py: greedy matching by tie groups, with contested identities set aside. */
module Alias {
  import opened Models
  import opened Renames
  import Similarity
  import opened Sorting

  method CombinedDistanceOf(before: TestIdentity, after: TestIdentity, n: nat) returns (r: real)
    ensures r == CombinedDistance(before, after, n)
  {
    var name := Similarity.MeasureNormalized(before.testName, after.testName, n);
    var path := Similarity.MeasureNormalized(before.suitePath, after.suitePath, n);
    r := NAME_WEIGHT * name + PATH_WEIGHT * path;
  }

  /** No fingerprint occurs twice, on one side or across the two. */
  ghost predicate Separate(disappeared: seq<TestIdentity>, appeared: seq<TestIdentity>) {
    var all := disappeared + appeared;
    forall i, j :: 0 <= i < j < |all| ==> all[i].fingerprint != all[j].fingerprint
  }

  lemma ScoredSplits(d: seq<TestIdentity>, d': seq<TestIdentity>, a: seq<TestIdentity>, a': seq<TestIdentity>,
                     config: IdentityConfig)
    ensures Scored(d + d', a, config) == Scored(d, a, config) + Scored(d', a, config)
    ensures Scored(d, a + a', config) == Scored(d, a, config) + Scored(d, a', config)
  {
  }

  lemma ScoredOne(one: TestIdentity, other: TestIdentity, config: IdentityConfig)
    ensures Scored([one], [other], config) ==
            if Eligible(one, other, config) then {MakePair(one, other, config)} else {}
  {
    if Eligible(one, other, config) {
      assert MakePair(one, other, config) in Scored([one], [other], config);
    }
  }

  method ScoreAgainst(one: TestIdentity, appeared: seq<TestIdentity>, config: IdentityConfig)
    returns (scored: seq<Pair>)
    ensures forall p :: p in scored <==> p in Scored([one], appeared, config)
    ensures NoRepeats(appeared) ==> NoRepeats(scored)
  {
    scored := [];
    for j := 0 to |appeared|
      invariant forall p :: p in scored <==> p in Scored([one], appeared[..j], config)
      invariant NoRepeats(appeared) ==> NoRepeats(scored)
    {
      var other := appeared[j];
      assert appeared[..j + 1] == appeared[..j] + [other];
      ScoredSplits([one], [], appeared[..j], [other], config);
      ScoredOne(one, other, config);
      if one.parameters != other.parameters || one.fingerprint == other.fingerprint {
        continue;
      }
      var distance := CombinedDistanceOf(one, other, config.maxCompareLength);
      CombinedDistanceLaws(one, other, config.maxCompareLength);
      if distance <= config.aliasMaxDistance {
        var p := Pair(distance, one, other, Rank(distance));
        if NoRepeats(appeared) {
          assert other !in appeared[..j];
          assert p !in Scored([one], appeared[..j], config);
          JoinWithoutRepeats(scored, [p]);
        }
        scored := scored + [p];
      }
    }
    assert appeared[..|appeared|] == appeared;
  }

  method Score(disappeared: seq<TestIdentity>, appeared: seq<TestIdentity>, config: IdentityConfig)
    returns (scored: seq<Pair>)
    ensures forall p :: p in scored <==> p in Scored(disappeared, appeared, config)
    ensures NoRepeats(disappeared) && NoRepeats(appeared) ==> NoRepeats(scored)
  {
    scored := [];
    for i := 0 to |disappeared|
      invariant forall p :: p in scored <==> p in Scored(disappeared[..i], appeared, config)
      invariant NoRepeats(disappeared) && NoRepeats(appeared) ==> NoRepeats(scored)
    {
      var more := ScoreAgainst(disappeared[i], appeared, config);
      assert disappeared[..i + 1] == disappeared[..i] + [disappeared[i]];
      ScoredSplits(disappeared[..i], [disappeared[i]], appeared, [], config);
      if NoRepeats(disappeared) && NoRepeats(appeared) {
        assert disappeared[i] !in disappeared[..i];
        JoinWithoutRepeats(scored, more);
      }
      scored := scored + more;
    }
    assert disappeared[..|disappeared|] == disappeared;
  }

  // ---- one tie group -----------------------------------------------------

  /** The pairs of `group` with no endpoint in `taken`, in order. */
  function Free(group: seq<Pair>, taken: set<nat>): (live: seq<Pair>)
    ensures forall p :: p in live <==> p in group && Ends(p) * taken == {}
  {
    if group == [] then []
    else
      var rest := Free(group[1..], taken);
      if Ends(group[0]) * taken == {} then [group[0]] + rest else rest
  }

  function Befores(live: seq<Pair>): seq<nat> { seq(|live|, i requires 0 <= i < |live| => live[i].before.fingerprint) }

  function Afters(live: seq<Pair>): seq<nat> { seq(|live|, i requires 0 <= i < |live| => live[i].after.fingerprint) }

  /** Whether either endpoint of `p` is claimed by more than one pair of the group. */
  predicate Conflicted(live: seq<Pair>, p: Pair) {
    multiset(Befores(live))[p.before.fingerprint] > 1 || multiset(Afters(live))[p.after.fingerprint] > 1
  }

  function ContestedEnds(live: seq<Pair>, part: seq<Pair>): set<nat> {
    set p, f | p in part && Conflicted(live, p) && f in Ends(p) :: f
  }

  method MarkContested(live: seq<Pair>, contested: set<nat>) returns (marked: set<nat>)
    ensures marked == contested + ContestedEnds(live, live)
  {
    var beforeCounts, afterCounts := multiset(Befores(live)), multiset(Afters(live));
    marked := contested;
    for k := 0 to |live|
      invariant marked == contested + ContestedEnds(live, live[..k])
    {
      var p := live[k];
      assert live[..k + 1] == live[..k] + [p];
      assert ContestedEnds(live, live[..k + 1]) == ContestedEnds(live, live[..k]) + ContestedEnds(live, [p]);
      assert ContestedEnds(live, [p]) == if Conflicted(live, p) then Ends(p) else {};
      if beforeCounts[p.before.fingerprint] > 1 || afterCounts[p.after.fingerprint] > 1 {
        marked := marked + {p.before.fingerprint, p.after.fingerprint};
      }
    }
    assert live[..|live|] == live;
  }

  function MakeCandidate(p: Pair, config: IdentityConfig): Candidate {
    Candidate(p.before.fingerprint, p.after.fingerprint, p.distance, p.distance <= config.aliasCertainDistance)
  }

  function EndsOf(pairs: seq<Pair>): set<nat> {
    set p, f | p in pairs && f in Ends(p) :: f
  }

  ghost predicate Apart(pairs: seq<Pair>) {
    forall i, j :: 0 <= i < j < |pairs| ==> !Touches(pairs[i], pairs[j])
  }

  /** Pairs of the group that are not set aside do not share endpoints. */
  ghost predicate Untangled(live: seq<Pair>, taken: set<nat>) {
    forall i, j :: 0 <= i < j < |live| && Ends(live[i]) * taken == {} && Ends(live[j]) * taken == {}
      ==> !Touches(live[i], live[j])
  }

  lemma {:induction false} FreeSnoc(s: seq<Pair>, p: Pair, taken: set<nat>)
    ensures Free(s + [p], taken) == Free(s, taken) + (if Ends(p) * taken == {} then [p] else [])
  {
    if s == [] {
      assert s + [p] == [p];
    } else {
      assert (s + [p])[1..] == s[1..] + [p];
      FreeSnoc(s[1..], p, taken);
    }
  }

  lemma FreeAgain(live: seq<Pair>, k: nat, taken: set<nat>, chosen: seq<Pair>)
    requires k < |live| && Untangled(live, taken) && Ends(live[k]) * taken == {}
    requires forall p :: p in chosen ==> p in live[..k] && Ends(p) * taken == {}
    ensures Ends(live[k]) * (taken + EndsOf(chosen)) == {}
  {
    forall f | f in Ends(live[k]) ensures f !in EndsOf(chosen) {
      if p :| p in chosen && f in Ends(p) {
        var i :| 0 <= i < k && live[i] == p;
        assert !Touches(live[i], live[k]);
        assert f !in Ends(live[i]) * Ends(live[k]);
      }
    }
  }

  lemma Adjoin(chosen: seq<Pair>, p: Pair)
    requires Apart(chosen) && Ends(p) * EndsOf(chosen) == {}
    ensures Apart(chosen + [p])
    ensures EndsOf(chosen + [p]) == EndsOf(chosen) + Ends(p)
  {
    forall i | 0 <= i < |chosen| ensures !Touches(chosen[i], p) {
      assert Ends(chosen[i]) <= EndsOf(chosen);
    }
  }

  /** What the second pass over a tie group has accepted from `seen`. */
  ghost predicate ChosenFrom(chosen: seq<Pair>, live: seq<Pair>, seen: seq<Pair>, taken: set<nat>) {
    && (forall p :: p in chosen ==> p in seen && Ends(p) * taken == {})
    && Apart(chosen)
    && (Untangled(live, taken) ==> chosen == Free(seen, taken))
  }

  lemma ChosenStep(chosen: seq<Pair>, live: seq<Pair>, k: nat, taken: set<nat>)
    requires k < |live| && ChosenFrom(chosen, live, live[..k], taken)
    ensures var p := live[k];
      ChosenFrom(if Ends(p) * (taken + EndsOf(chosen)) == {} then chosen + [p] else chosen, live, live[..k + 1], taken)
  {
    var p := live[k];
    assert live[..k + 1] == live[..k] + [p];
    FreeSnoc(live[..k], p, taken);
    if Ends(p) * (taken + EndsOf(chosen)) == {} {
      Adjoin(chosen, p);
      assert Ends(p) * taken == {};
    } else if Untangled(live, taken) && Ends(p) * taken == {} {
      FreeAgain(live, k, taken, chosen);
    }
  }

  method AcceptFree(live: seq<Pair>, used: set<nat>, contested: set<nat>) returns (chosen: seq<Pair>, claimed: set<nat>)
    ensures claimed == used + EndsOf(chosen)
    ensures ChosenFrom(chosen, live, live, used + contested)
  {
    chosen, claimed := [], used;
    for k := 0 to |live|
      invariant claimed == used + EndsOf(chosen)
      invariant ChosenFrom(chosen, live, live[..k], used + contested)
    {
      var p := live[k];
      ChosenStep(chosen, live, k, used + contested);
      assert claimed + contested == used + contested + EndsOf(chosen);
      if Ends(p) * (claimed + contested) != {} {
        continue;
      }
      assert EndsOf(chosen + [p]) == EndsOf(chosen) + Ends(p);
      claimed := claimed + {p.before.fingerprint, p.after.fingerprint};
      chosen := chosen + [p];
    }
    assert live[..|live|] == live;
  }

  // ---- what one tie group contributes ------------------------------------

  /** Fingerprints identify identities, and no fingerprint is on both sides. */
  ghost predicate SidesApart(scored: set<Pair>) {
    && (forall p, q :: p in scored && q in scored ==> p.before.fingerprint != q.after.fingerprint)
    && (forall p, q :: p in scored && q in scored && Ends(p) == Ends(q) ==> p == q)
  }

  /** Endpoints taken by the live pairs of `part`. */
  ghost function LiveEnds(scored: set<Pair>, part: seq<Pair>): set<nat> {
    set p, f | p in part && Live(scored, p) && f in Ends(p) :: f
  }

  /** `past` is every pair ranked below `r` and `group` every pair ranked exactly `r`. */
  ghost predicate TieGroup(scored: set<Pair>, past: seq<Pair>, group: seq<Pair>, r: nat) {
    && (forall p :: p in past <==> p in scored && p.rank < r)
    && (forall p :: p in group <==> p in scored && p.rank == r)
    && NoRepeats(group)
  }

  lemma FreeIsLive(scored: set<Pair>, past: seq<Pair>, group: seq<Pair>, r: nat, p: Pair)
    requires TieGroup(scored, past, group, r) && p in group
    ensures Ends(p) * LiveEnds(scored, past) == {} <==> Live(scored, p)
  {
    if Live(scored, p) {
      forall q | q in past && Live(scored, q) ensures Ends(q) * Ends(p) == {} {
        assert !Touches(q, p);
      }
    } else {
      var q :| q in scored && q.rank < p.rank && Touches(q, p) && Live(scored, q);
      var f :| f in Ends(q) * Ends(p);
      assert f in Ends(p) * LiveEnds(scored, past);
    }
  }

  lemma LiveGroup(scored: set<Pair>, past: seq<Pair>, group: seq<Pair>, r: nat)
    requires TieGroup(scored, past, group, r)
    ensures var live := Free(group, LiveEnds(scored, past));
      forall p :: p in live <==> Live(scored, p) && p.rank == r
  {
    var live := Free(group, LiveEnds(scored, past));
    forall p ensures p in live <==> Live(scored, p) && p.rank == r {
      if p in group { FreeIsLive(scored, past, group, r, p); }
    }
  }

  lemma {:induction false} FreeKeepsApart(group: seq<Pair>, taken: set<nat>)
    requires NoRepeats(group)
    ensures NoRepeats(Free(group, taken))
  {
    if group != [] {
      FreeKeepsApart(group[1..], taken);
      var rest := Free(group[1..], taken);
      forall p | p in rest ensures p != group[0] {
        var k :| 0 <= k < |group[1..]| && group[1..][k] == p;
        assert group[k + 1] == p;
      }
      if Ends(group[0]) * taken == {} { JoinWithoutRepeats([group[0]], rest); }
    }
  }

  lemma CountOther(s: seq<nat>, k: nat)
    requires k < |s|
    ensures multiset(s)[s[k]] > 1 <==> exists i :: 0 <= i < |s| && i != k && s[i] == s[k]
  {
    var rest := s[..k] + s[k + 1..];
    assert s == s[..k] + [s[k]] + s[k + 1..];
    assert multiset(s) == multiset(rest) + multiset{s[k]};
    if multiset(s)[s[k]] > 1 {
      assert s[k] in rest;
      var j :| 0 <= j < |rest| && rest[j] == s[k];
      assert s[if j < k then j else j + 1] == s[k];
    }
    if i :| 0 <= i < |s| && i != k && s[i] == s[k] {
      assert rest[if i < k then i else i - 1] == s[k];
      assert s[k] in rest;
    }
  }

  /** The two counters detect exactly the pairs that share an endpoint with another live pair. */
  lemma ConflictedIff(live: seq<Pair>, k: nat, scored: set<Pair>)
    requires k < |live| && NoRepeats(live) && SidesApart(scored)
    requires forall p :: p in live ==> p in scored
    ensures Conflicted(live, live[k]) <==> exists q :: q in live && q != live[k] && Touches(q, live[k])
  {
    var p := live[k];
    CountOther(Befores(live), k);
    CountOther(Afters(live), k);
    if Conflicted(live, p) {
      var i :| 0 <= i < |live| && i != k &&
        (live[i].before.fingerprint == p.before.fingerprint || live[i].after.fingerprint == p.after.fingerprint);
      var f := if live[i].before.fingerprint == p.before.fingerprint then p.before.fingerprint else p.after.fingerprint;
      assert f in Ends(live[i]) * Ends(p);
      assert live[i] in live && Touches(live[i], p);
    }
    if q :| q in live && q != p && Touches(q, p) {
      var i :| 0 <= i < |live| && live[i] == q;
      assert q.before.fingerprint == p.before.fingerprint || q.after.fingerprint == p.after.fingerprint by {
        var f :| f in Ends(q) * Ends(p);
      }
      assert Befores(live)[i] == Befores(live)[k] || Afters(live)[i] == Afters(live)[k];
    }
  }

  /** `live` is the live part of a tie group, none of whose endpoints are in `taken`. */
  ghost predicate LivePart(scored: set<Pair>, live: seq<Pair>, r: nat, taken: set<nat>) {
    && SidesApart(scored) && NoRepeats(live)
    && (forall p :: p in live <==> Live(scored, p) && p.rank == r)
    && (forall p :: p in live ==> Ends(p) * taken == {})
  }

  lemma AcceptedIff(scored: set<Pair>, live: seq<Pair>, r: nat, taken: set<nat>, p: Pair)
    requires LivePart(scored, live, r, taken) && p in live
    ensures Ends(p) * (taken + ContestedEnds(live, live)) == {} <==> Accepted(scored, p)
  {
    var k :| 0 <= k < |live| && live[k] == p;
    ConflictedIff(live, k, scored);
    if Accepted(scored, p) {
      forall q | q in live && Conflicted(live, q) ensures Ends(q) * Ends(p) == {} {
        assert q != p;
        assert !Touches(q, p);
      }
    } else {
      assert Conflicted(live, p);
      assert p.before.fingerprint in ContestedEnds(live, live);
    }
  }

  lemma GroupAccepted(scored: set<Pair>, live: seq<Pair>, r: nat, taken: set<nat>)
    requires LivePart(scored, live, r, taken)
    ensures Untangled(live, taken + ContestedEnds(live, live))
    ensures forall p :: p in Free(live, taken + ContestedEnds(live, live)) <==> Accepted(scored, p) && p.rank == r
  {
    var all := taken + ContestedEnds(live, live);
    forall p ensures p in Free(live, all) <==> Accepted(scored, p) && p.rank == r {
      if p in live { AcceptedIff(scored, live, r, taken, p); }
    }
    forall i, j | 0 <= i < j < |live| && Ends(live[i]) * all == {} && Ends(live[j]) * all == {}
      ensures !Touches(live[i], live[j])
    {
      AcceptedIff(scored, live, r, taken, live[i]);
      AcceptedIff(scored, live, r, taken, live[j]);
      if Touches(live[i], live[j]) { AcceptedIsMatching(scored, live[i], live[j]); }
    }
  }

  /** After a group, exactly the endpoints of its live pairs have been added to the taken ones. */
  lemma GroupTakes(scored: set<Pair>, live: seq<Pair>, r: nat, taken: set<nat>, chosen: seq<Pair>)
    requires LivePart(scored, live, r, taken)
    requires chosen == Free(live, taken + ContestedEnds(live, live))
    ensures EndsOf(chosen) + ContestedEnds(live, live) == EndsOf(live)
  {
    forall p | p in live ensures Ends(p) <= EndsOf(chosen) + ContestedEnds(live, live) {
      AcceptedIff(scored, live, r, taken, p);
      if p !in chosen {
        var k :| 0 <= k < |live| && live[k] == p;
        ConflictedIff(live, k, scored);
        assert Conflicted(live, p);
      }
    }
  }

  lemma {:induction false} FreeKeepsOrder(group: seq<Pair>, taken: set<nat>)
    requires StrictlyOrdered(group)
    ensures StrictlyOrdered(Free(group, taken))
  {
    if group != [] {
      FreeKeepsOrder(group[1..], taken);
      forall p | p in Free(group[1..], taken) ensures KeyBefore(group[0], p) {
        var k :| 0 <= k < |group[1..]| && group[1..][k] == p;
        assert group[k + 1] == p;
      }
    }
  }

  // ---- the whole matching ------------------------------------------------

  /** Where the matching stands once every pair of `past` has been processed. */
  ghost predicate Progress(scored: set<Pair>, past: seq<Pair>, used: set<nat>, contested: set<nat>, pairs: seq<Pair>) {
    && used + contested == LiveEnds(scored, past)
    && StrictlyOrdered(pairs)
    && forall p :: p in pairs <==> p in past && Accepted(scored, p)
  }

  lemma JoinOrdered(r: nat, a: seq<Pair>, b: seq<Pair>)
    requires StrictlyOrdered(a) && StrictlyOrdered(b)
    requires forall p :: p in a ==> p.rank < r
    requires forall p :: p in b ==> p.rank == r
    ensures StrictlyOrdered(a + b)
  {
    forall i, j | 0 <= i < j < |a + b| ensures KeyBefore((a + b)[i], (a + b)[j]) {
      if i < |a| <= j { assert (a + b)[i] in a && (a + b)[j] in b; }
    }
  }

  lemma LiveEndsGrow(scored: set<Pair>, past: seq<Pair>, group: seq<Pair>, live: seq<Pair>)
    requires forall p :: p in live <==> p in group && Live(scored, p)
    ensures LiveEnds(scored, past + group) == LiveEnds(scored, past) + EndsOf(live)
  {
  }

  /** What resolving one tie group returns. */
  ghost predicate Resolved(group: seq<Pair>, used: set<nat>, contested: set<nat>, chosen: seq<Pair>, claimed: set<nat>,
                           marked: set<nat>) {
    var live := Free(group, used + contested);
    && marked == contested + ContestedEnds(live, live)
    && claimed == used + EndsOf(chosen)
    && ChosenFrom(chosen, live, live, used + marked)
  }

  lemma GroupOrder(r: nat, group: seq<Pair>, before: set<nat>, taken: set<nat>, pairs: seq<Pair>, chosen: seq<Pair>)
    requires StrictlyOrdered(group) && StrictlyOrdered(pairs)
    requires forall p :: p in pairs ==> p.rank < r
    requires forall p :: p in chosen ==> p.rank == r
    requires chosen == Free(Free(group, before), taken)
    ensures StrictlyOrdered(pairs + chosen)
  {
    FreeKeepsOrder(group, before);
    FreeKeepsOrder(Free(group, before), taken);
    JoinOrdered(r, pairs, chosen);
  }

  lemma {:induction false} GroupStep(scored: set<Pair>, past: seq<Pair>, group: seq<Pair>, r: nat, used: set<nat>,
                                     contested: set<nat>, pairs: seq<Pair>, chosen: seq<Pair>, claimed: set<nat>,
                                     marked: set<nat>)
    requires SidesApart(scored) && StrictlyOrdered(group)
    requires TieGroup(scored, past, group, r)
    requires Progress(scored, past, used, contested, pairs)
    requires Resolved(group, used, contested, chosen, claimed, marked)
    ensures Progress(scored, past + group, claimed, marked, pairs + chosen)
  {
    var before := used + contested;
    var live := Free(group, before);
    var taken := before + ContestedEnds(live, live);
    assert taken == used + marked;
    LiveGroup(scored, past, group, r);
    FreeKeepsApart(group, before);
    GroupAccepted(scored, live, r, before);
    GroupTakes(scored, live, r, before, chosen);
    GroupOrder(r, group, before, taken, pairs, chosen);
    LiveEndsGrow(scored, past, group, live);
  }

  ghost predicate Ascending(pairs: seq<Pair>) {
    forall i, j :: 0 <= i < j < |pairs| ==> pairs[i].rank <= pairs[j].rank
  }

  lemma SortFacts(scored: seq<Pair>, sorted: seq<Pair>)
    requires sorted == SortBy(scored, KeyAtMost)
    ensures Ascending(sorted)
    ensures forall p :: p in sorted <==> p in scored
    ensures forall i, j :: 0 <= i < j < |sorted| ==> KeyAtMost(sorted[i], sorted[j])
  {
    SortBySorts(scored, KeyAtMost);
    SortElements(scored, KeyAtMost);
    SameElements(sorted, scored);
    forall i, j | 0 <= i < j < |sorted| ensures KeyAtMost(sorted[i], sorted[j]) {
      SortedIndex(sorted, KeyAtMost, i, j);
    }
  }

  lemma SortIsStrict(scored: seq<Pair>, sorted: seq<Pair>, all: set<Pair>)
    requires sorted == SortBy(scored, KeyAtMost)
    requires NoRepeats(scored) && SidesApart(all) && forall p :: p in scored ==> p in all
    ensures StrictlyOrdered(sorted)
  {
    SortFacts(scored, sorted);
    SortElements(scored, KeyAtMost);
    ReorderWithoutRepeats(scored, sorted);
    forall i, j | 0 <= i < j < |sorted| ensures KeyBefore(sorted[i], sorted[j]) {
      assert sorted[i] in scored && sorted[j] in scored && sorted[i] != sorted[j];
      assert Ends(sorted[i]) != Ends(sorted[j]);
    }
  }

  lemma SeparateSides(disappeared: seq<TestIdentity>, appeared: seq<TestIdentity>, config: IdentityConfig)
    requires Separate(disappeared, appeared)
    ensures NoRepeats(disappeared) && NoRepeats(appeared)
    ensures SidesApart(Scored(disappeared, appeared, config))
  {
    var all := disappeared + appeared;
    forall i, j | 0 <= i < j < |disappeared| ensures disappeared[i] != disappeared[j] {
      assert all[i] == disappeared[i] && all[j] == disappeared[j];
    }
    forall i, j | 0 <= i < j < |appeared| ensures appeared[i] != appeared[j] {
      assert all[|disappeared| + i] == appeared[i] && all[|disappeared| + j] == appeared[j];
    }
    forall x, y | x in disappeared && y in appeared ensures x.fingerprint != y.fingerprint {
      var i :| 0 <= i < |disappeared| && disappeared[i] == x;
      var j :| 0 <= j < |appeared| && appeared[j] == y;
      assert all[i] == x && all[|disappeared| + j] == y;
    }
    forall x, y | x in all && y in all && x.fingerprint == y.fingerprint ensures x == y {
      var i :| 0 <= i < |all| && all[i] == x;
      var j :| 0 <= j < |all| && all[j] == y;
      assert i == j;
    }
    var scored := Scored(disappeared, appeared, config);
    forall p, q | p in scored && q in scored && Ends(p) == Ends(q)
      ensures p == q
    {
      assert p.before in all && q.before in all && p.after in all && q.after in all;
      assert p.before.fingerprint in Ends(q) && p.after.fingerprint in Ends(q);
    }
  }

  ghost predicate Lists(pairs: seq<Pair>, all: set<Pair>) {
    forall p :: p in pairs <==> p in all
  }

  /** True of the matching on any input, repeated fingerprints included. */
  ghost predicate SoundSoFar(past: seq<Pair>, used: set<nat>, pairs: seq<Pair>) {
    && (forall p :: p in pairs ==> p in past)
    && used == EndsOf(pairs)
    && Apart(pairs)
    && Ascending(pairs)
  }

  lemma SoundStep(past: seq<Pair>, group: seq<Pair>, r: nat, used: set<nat>, contested: set<nat>, pairs: seq<Pair>,
                  chosen: seq<Pair>, claimed: set<nat>, marked: set<nat>)
    requires SoundSoFar(past, used, pairs)
    requires forall p :: p in past ==> p.rank <= r
    requires forall p :: p in group ==> p.rank == r
    requires Resolved(group, used, contested, chosen, claimed, marked)
    ensures SoundSoFar(past + group, claimed, pairs + chosen)
  {
    var all := pairs + chosen;
    forall p | p in chosen ensures p in group && Ends(p) * used == {} {
      assert Ends(p) * (used + marked) == {};
    }
    forall i, j | 0 <= i < j < |all| ensures !Touches(all[i], all[j]) && all[i].rank <= all[j].rank {
      if i < |pairs| <= j {
        assert all[i] in pairs && all[j] in chosen;
        assert Ends(all[i]) <= EndsOf(pairs);
      } else if |pairs| <= i {
        assert all[i] in chosen && all[j] in chosen;
      }
    }
    assert EndsOf(all) == EndsOf(pairs) + EndsOf(chosen);
  }

  /** `sorted[i..j]` is a maximal run of equal rank. */
  predicate IsRun(sorted: seq<Pair>, i: nat, j: nat) {
    && i < j <= |sorted|
    && (i > 0 ==> sorted[i - 1].rank < sorted[i].rank)
    && (forall k :: i <= k < j ==> sorted[k].rank == sorted[i].rank)
    && (j < |sorted| ==> sorted[j].rank != sorted[i].rank)
  }

  lemma RunSeparates(sorted: seq<Pair>, i: nat, j: nat, k: nat)
    requires Ascending(sorted) && IsRun(sorted, i, j) && k < |sorted|
    ensures sorted[k].rank < sorted[i].rank <==> k < i
    ensures sorted[k].rank == sorted[i].rank <==> i <= k < j
  {
    if k < i - 1 { assert sorted[k].rank <= sorted[i - 1].rank; }
    if j < k { assert sorted[j].rank <= sorted[k].rank; }
  }

  /** A maximal run of the sorted pairs is a whole tie group. */
  lemma RunIsTieGroup(scored: set<Pair>, sorted: seq<Pair>, i: nat, j: nat)
    requires Lists(sorted, scored)
    requires Ascending(sorted) && StrictlyOrdered(sorted) && IsRun(sorted, i, j)
    ensures TieGroup(scored, sorted[..i], sorted[i..j], sorted[i].rank)
  {
    var r := sorted[i].rank;
    forall p ensures p in sorted[..i] <==> p in scored && p.rank < r {
      if p in sorted {
        var k :| 0 <= k < |sorted| && sorted[k] == p;
        RunSeparates(sorted, i, j, k);
        if k < i { assert sorted[..i][k] == p; }
      }
    }
    forall p ensures p in sorted[i..j] <==> p in scored && p.rank == r {
      if p in sorted {
        var k :| 0 <= k < |sorted| && sorted[k] == p;
        RunSeparates(sorted, i, j, k);
        if i <= k < j { assert sorted[i..j][k - i] == p; }
      }
    }
  }

  lemma SliceOrdered(sorted: seq<Pair>, i: nat, j: nat)
    requires StrictlyOrdered(sorted) && i <= j <= |sorted|
    ensures StrictlyOrdered(sorted[i..j])
  {
  }

  function Candidates(pairs: seq<Pair>, config: IdentityConfig): (cs: seq<Candidate>)
    ensures |cs| == |pairs|
    ensures forall k :: 0 <= k < |pairs| ==> cs[k] == MakeCandidate(pairs[k], config)
  {
    seq(|pairs|, k requires 0 <= k < |pairs| => MakeCandidate(pairs[k], config))
  }

  lemma CandidatesJoin(a: seq<Pair>, b: seq<Pair>, config: IdentityConfig)
    ensures Candidates(a + b, config) == Candidates(a, config) + Candidates(b, config)
  {
  }

  method ResolveGroup(group: seq<Pair>, used: set<nat>, contested: set<nat>)
    returns (chosen: seq<Pair>, claimed: set<nat>, marked: set<nat>)
    ensures Resolved(group, used, contested, chosen, claimed, marked)
  {
    var live := Free(group, used + contested);
    marked := MarkContested(live, contested);
    chosen, claimed := AcceptFree(live, used, marked);
  }

  /** The loop invariant of the matching after `sorted[..i]`. */
  ghost predicate Matched(all: set<Pair>, sorted: seq<Pair>, i: nat, used: set<nat>, contested: set<nat>,
                          pairs: seq<Pair>)
    requires i <= |sorted|
  {
    && SoundSoFar(sorted[..i], used, pairs)
    && (SidesApart(all) && StrictlyOrdered(sorted) ==> Progress(all, sorted[..i], used, contested, pairs))
  }

  lemma RunRanks(sorted: seq<Pair>, i: nat, j: nat)
    requires Ascending(sorted) && IsRun(sorted, i, j)
    ensures forall p :: p in sorted[..i] ==> p.rank <= sorted[i].rank
    ensures forall p :: p in sorted[i..j] ==> p.rank == sorted[i].rank
  {
  }

  lemma SlicesJoin(sorted: seq<Pair>, i: nat, j: nat)
    requires i <= j <= |sorted|
    ensures sorted[..i] + sorted[i..j] == sorted[..j]
  {
  }

  lemma {:induction false} ProgressStep(all: set<Pair>, sorted: seq<Pair>, i: nat, j: nat, used: set<nat>,
                                        contested: set<nat>, pairs: seq<Pair>, chosen: seq<Pair>, claimed: set<nat>,
                                        marked: set<nat>)
    requires Lists(sorted, all)
    requires Ascending(sorted) && IsRun(sorted, i, j) && SidesApart(all) && StrictlyOrdered(sorted)
    requires Progress(all, sorted[..i], used, contested, pairs)
    requires Resolved(sorted[i..j], used, contested, chosen, claimed, marked)
    ensures Progress(all, sorted[..j], claimed, marked, pairs + chosen)
  {
    SlicesJoin(sorted, i, j);
    RunIsTieGroup(all, sorted, i, j);
    SliceOrdered(sorted, i, j);
    GroupStep(all, sorted[..i], sorted[i..j], sorted[i].rank, used, contested, pairs, chosen, claimed, marked);
  }

  lemma {:induction false} SoundRun(sorted: seq<Pair>, i: nat, j: nat, used: set<nat>, contested: set<nat>,
                                    pairs: seq<Pair>, chosen: seq<Pair>, claimed: set<nat>, marked: set<nat>)
    requires Ascending(sorted) && IsRun(sorted, i, j)
    requires SoundSoFar(sorted[..i], used, pairs)
    requires Resolved(sorted[i..j], used, contested, chosen, claimed, marked)
    ensures SoundSoFar(sorted[..j], claimed, pairs + chosen)
  {
    SlicesJoin(sorted, i, j);
    RunRanks(sorted, i, j);
    SoundStep(sorted[..i], sorted[i..j], sorted[i].rank, used, contested, pairs, chosen, claimed, marked);
  }

  lemma {:induction false} MatchedStep(all: set<Pair>, sorted: seq<Pair>, i: nat, j: nat, used: set<nat>,
                                       contested: set<nat>, pairs: seq<Pair>, chosen: seq<Pair>, claimed: set<nat>,
                                       marked: set<nat>)
    requires Lists(sorted, all)
    requires Ascending(sorted) && IsRun(sorted, i, j)
    requires Matched(all, sorted, i, used, contested, pairs)
    requires Resolved(sorted[i..j], used, contested, chosen, claimed, marked)
    ensures Matched(all, sorted, j, claimed, marked, pairs + chosen)
  {
    SoundRun(sorted, i, j, used, contested, pairs, chosen, claimed, marked);
    if SidesApart(all) && StrictlyOrdered(sorted) {
      ProgressStep(all, sorted, i, j, used, contested, pairs, chosen, claimed, marked);
    }
  }

  lemma MatchedStart(all: set<Pair>, sorted: seq<Pair>)
    ensures Matched(all, sorted, 0, {}, {}, [])
  {
    assert sorted[..0] == [];
  }

  lemma MatchedEnd(all: set<Pair>, sorted: seq<Pair>, used: set<nat>, contested: set<nat>, pairs: seq<Pair>)
    requires Lists(sorted, all)
    requires Matched(all, sorted, |sorted|, used, contested, pairs)
    ensures Apart(pairs) && Ascending(pairs)
    ensures forall p :: p in pairs ==> p in all
    ensures SidesApart(all) && StrictlyOrdered(sorted) ==> IsOutcome(all, pairs)
  {
    assert sorted[..|sorted|] == sorted;
  }

  /** The end of the run of equal rank that starts at `i`. */
  method RunEnd(sorted: seq<Pair>, i: nat) returns (j: nat)
    requires i < |sorted| && (i > 0 ==> sorted[i - 1].rank < sorted[i].rank)
    ensures IsRun(sorted, i, j)
  {
    j := i + 1;
    while j < |sorted| && sorted[j].rank == sorted[i].rank
      invariant i < j <= |sorted|
      invariant forall k :: i <= k < j ==> sorted[k].rank == sorted[i].rank
    {
      j := j + 1;
    }
  }

  method MatchGroups(sorted: seq<Pair>, config: IdentityConfig, ghost all: set<Pair>)
    returns (accepted: seq<Candidate>, ghost pairs: seq<Pair>)
    requires Ascending(sorted) && Lists(sorted, all)
    ensures accepted == Candidates(pairs, config)
    ensures Apart(pairs) && Ascending(pairs)
    ensures forall p :: p in pairs ==> p in all
    ensures SidesApart(all) && StrictlyOrdered(sorted) ==> IsOutcome(all, pairs)
  {
    accepted, pairs := [], [];
    var used: set<nat>, contested: set<nat> := {}, {};
    MatchedStart(all, sorted);
    var i := 0;
    while i < |sorted|
      invariant 0 <= i <= |sorted|
      invariant 0 < i < |sorted| ==> sorted[i - 1].rank < sorted[i].rank
      invariant Matched(all, sorted, i, used, contested, pairs)
      invariant accepted == Candidates(pairs, config)
    {
      var j := RunEnd(sorted, i);
      var chosen, claimed, marked := ResolveGroup(sorted[i..j], used, contested);
      MatchedStep(all, sorted, i, j, used, contested, pairs, chosen, claimed, marked);
      CandidatesJoin(pairs, chosen, config);
      accepted := accepted + Candidates(chosen, config);
      pairs := pairs + chosen;
      used, contested := claimed, marked;
      i := j;
    }
    MatchedEnd(all, sorted, used, contested, pairs);
  }

  /** `pairs` is a matching of eligible pairs by ascending rank, and, for sides told apart by their fingerprints,
      exactly the order-free outcome. */
  ghost predicate Matching(disappeared: seq<TestIdentity>, appeared: seq<TestIdentity>, config: IdentityConfig,
                           pairs: seq<Pair>) {
    && Apart(pairs) && Ascending(pairs)
    && (forall p :: p in pairs ==> p in Scored(disappeared, appeared, config))
    && (Separate(disappeared, appeared) ==> IsOutcome(Scored(disappeared, appeared, config), pairs))
  }

  /** The candidates report such a matching, pair by pair. */
  ghost predicate Reports(disappeared: seq<TestIdentity>, appeared: seq<TestIdentity>, config: IdentityConfig,
                          accepted: seq<Candidate>) {
    exists pairs :: Matching(disappeared, appeared, config, pairs) && accepted == Candidates(pairs, config)
  }

  /** The accepted candidates, with the pairs behind them. */
  method DetectRenames(disappeared: seq<TestIdentity>, appeared: seq<TestIdentity>, config: IdentityConfig)
    returns (accepted: seq<Candidate>, ghost pairs: seq<Pair>)
    ensures Reports(disappeared, appeared, config, accepted)
    ensures accepted == Candidates(pairs, config) && Matching(disappeared, appeared, config, pairs)
  {
    ghost var all := Scored(disappeared, appeared, config);
    if disappeared == [] || appeared == [] {
      assert all == {};
      accepted, pairs := [], [];
      assert Matching(disappeared, appeared, config, pairs);
      return;
    }
    var scored := Score(disappeared, appeared, config);
    var sorted := SortBy(scored, KeyAtMost);
    SortFacts(scored, sorted);
    if Separate(disappeared, appeared) {
      SeparateSides(disappeared, appeared, config);
      SortIsStrict(scored, sorted, all);
    }
    accepted, pairs := MatchGroups(sorted, config, all);
  }
}

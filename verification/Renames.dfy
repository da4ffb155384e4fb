/** What rename detection decides, stated on the set of scored pairs and independently of any
    processing order: a pair is live unless a live pair of smaller rank touches it, and it is
    accepted when it is live and no other live pair of its rank touches it. */
module Renames {
  import opened Models
  import Similarity
  import Sorting

  datatype Pair = Pair(distance: real, before: TestIdentity, after: TestIdentity, rank: nat)

  datatype Candidate = Candidate(oldFingerprint: nat, newFingerprint: nat, distance: real, certain: bool)

  const NAME_WEIGHT := 0.5
  const PATH_WEIGHT := 0.5

  ghost function CombinedDistance(before: TestIdentity, after: TestIdentity, n: nat): real {
    NAME_WEIGHT * Similarity.NormalizedDistance(before.testName, after.testName, n)
    + PATH_WEIGHT * Similarity.NormalizedDistance(before.suitePath, after.suitePath, n)
  }

  lemma CombinedDistanceLaws(before: TestIdentity, after: TestIdentity, n: nat)
    ensures 0.0 <= CombinedDistance(before, after, n) <= 1.0
    ensures CombinedDistance(before, after, n) == CombinedDistance(after, before, n)
  {
    Similarity.NormalizedDistanceLaws(before.testName, after.testName, n);
    Similarity.NormalizedDistanceLaws(before.suitePath, after.suitePath, n);
  }

  /** round(distance, 9) in units of the ninth decimal, ties to the even neighbour. */
  function Rank(distance: real): (r: nat)
    requires 0.0 <= distance
  {
    var scaled := distance * 1000000000.0;
    var below := scaled.Floor;
    var rest := scaled - below as real;
    if rest < 0.5 || (rest == 0.5 && below % 2 == 0) then below else below + 1
  }

  lemma {:induction false} RankMonotone(x: real, y: real)
    requires 0.0 <= x <= y
    ensures Rank(x) <= Rank(y)
  {
  }

  ghost function MakePair(before: TestIdentity, after: TestIdentity, config: IdentityConfig): Pair {
    CombinedDistanceLaws(before, after, config.maxCompareLength);
    var distance := CombinedDistance(before, after, config.maxCompareLength);
    Pair(distance, before, after, Rank(distance))
  }

  /** A pair the rules allow to be considered at all. */
  ghost predicate Eligible(before: TestIdentity, after: TestIdentity, config: IdentityConfig) {
    && before.parameters == after.parameters
    && before.fingerprint != after.fingerprint
    && CombinedDistance(before, after, config.maxCompareLength) <= config.aliasMaxDistance
  }

  ghost function Scored(disappeared: seq<TestIdentity>, appeared: seq<TestIdentity>, config: IdentityConfig)
    : set<Pair>
  {
    set before, after | before in disappeared && after in appeared && Eligible(before, after, config)
      :: MakePair(before, after, config)
  }

  function Ends(p: Pair): set<nat> { {p.before.fingerprint, p.after.fingerprint} }

  predicate Touches(p: Pair, q: Pair) { Ends(p) * Ends(q) != {} }

  ghost predicate Live(scored: set<Pair>, p: Pair)
    decreases p.rank
  {
    && p in scored
    && forall q :: q in scored && q.rank < p.rank && Touches(q, p) ==> !Live(scored, q)
  }

  ghost predicate Accepted(scored: set<Pair>, p: Pair) {
    && Live(scored, p)
    && forall q :: Live(scored, q) && q.rank == p.rank && Touches(q, p) ==> q == p
  }

  /** Every pair removed an endpoint at or below its own rank is one that `p` loses to. */
  ghost predicate LosesTo(scored: set<Pair>, p: Pair, q: Pair) {
    q != p && Live(scored, q) && q.rank <= p.rank && Touches(q, p)
  }

  /** The accepted pairs form a matching. */
  lemma AcceptedIsMatching(scored: set<Pair>, p: Pair, q: Pair)
    requires Accepted(scored, p) && Accepted(scored, q) && Touches(p, q)
    ensures p == q
  {
    assert Touches(q, p);
  }

  /** A scored pair is rejected exactly when some live pair it touches ranks no worse. */
  lemma RejectedIff(scored: set<Pair>, p: Pair)
    requires p in scored
    ensures !Accepted(scored, p) <==> exists q :: LosesTo(scored, p, q)
  {
    if !Accepted(scored, p) {
      if Live(scored, p) {
        var q :| Live(scored, q) && q.rank == p.rank && Touches(q, p) && q != p;
        assert LosesTo(scored, p, q);
      } else {
        var q :| q in scored && q.rank < p.rank && Touches(q, p) && Live(scored, q);
        assert LosesTo(scored, p, q);
      }
    }
  }

  /** An accepted pair is strictly best: any rival at no larger rank had lost its other endpoint
      to a live pair of strictly smaller rank than the rival, away from the accepted pair. */
  lemma AcceptedIsStrictlyBest(scored: set<Pair>, p: Pair, rival: Pair) returns (winner: Pair)
    requires Accepted(scored, p) && rival in scored && rival != p
    requires Touches(rival, p) && rival.rank <= p.rank
    ensures Live(scored, winner) && winner.rank < rival.rank
    ensures Touches(winner, rival) && !Touches(winner, p)
    ensures Ends(winner) * Ends(rival) <= Ends(rival) - Ends(p)
  {
    assert !Live(scored, rival);
    winner :| winner in scored && winner.rank < rival.rank && Touches(winner, rival) && Live(scored, winner);
    assert !Touches(winner, p);
    forall f | f in Ends(winner) * Ends(rival) ensures f !in Ends(p) {
      assert f in Ends(p) ==> f in Ends(winner) * Ends(p);
    }
  }

  /** Whatever is accepted has equal parameters and is within the ceiling. */
  lemma AcceptedRespectsRules(disappeared: seq<TestIdentity>, appeared: seq<TestIdentity>, config: IdentityConfig,
                              p: Pair)
    requires Accepted(Scored(disappeared, appeared, config), p)
    ensures p.before in disappeared && p.after in appeared
    ensures p.before.parameters == p.after.parameters
    ensures p.distance == CombinedDistance(p.before, p.after, config.maxCompareLength) <= config.aliasMaxDistance
  {
  }

  // ---- the outcome as a list ---------------------------------------------

  predicate KeyBefore(p: Pair, q: Pair) {
    || p.rank < q.rank
    || (p.rank == q.rank && p.before.fingerprint < q.before.fingerprint)
    || (p.rank == q.rank && p.before.fingerprint == q.before.fingerprint && p.after.fingerprint < q.after.fingerprint)
  }

  /** The sort key of the candidates: rank, then the two fingerprints. */
  predicate KeyAtMost(p: Pair, q: Pair) { !KeyBefore(q, p) }

  ghost predicate StrictlyOrdered(pairs: seq<Pair>) {
    forall i, j :: 0 <= i < j < |pairs| ==> KeyBefore(pairs[i], pairs[j])
  }

  /** `pairs` lists exactly the accepted pairs, by ascending rank then fingerprints. */
  ghost predicate IsOutcome(scored: set<Pair>, pairs: seq<Pair>) {
    && StrictlyOrdered(pairs)
    && forall p :: p in pairs <==> Accepted(scored, p)
  }

  lemma {:induction false} OrderedListUnique(a: seq<Pair>, b: seq<Pair>)
    requires StrictlyOrdered(a) && StrictlyOrdered(b)
    requires forall p :: p in a <==> p in b
    ensures a == b
  {
    if a == [] {
      if b != [] { HasMember(b); }
    } else {
      assert a[0] in b && b[0] in a by { assert a[0] in b; }
      var i :| 0 <= i < |b| && b[i] == a[0];
      var j :| 0 <= j < |a| && a[j] == b[0];
      assert i == 0;
      forall p ensures p in a[1..] <==> p in b[1..] {
        RestMember(a, p);
        RestMember(b, p);
      }
      OrderedListUnique(a[1..], b[1..]);
      assert a == [a[0]] + a[1..] && b == [b[0]] + b[1..];
    }
  }

  lemma HasMember(b: seq<Pair>)
    requires b != []
    ensures exists p :: p in b
  {
    assert b[0] in b;
  }

  lemma RestMember(a: seq<Pair>, p: Pair)
    requires StrictlyOrdered(a) && a != []
    ensures p in a[1..] <==> p in a && p != a[0]
  {
    if p in a && p != a[0] {
      var k :| 0 <= k < |a| && a[k] == p;
      assert a[1..][k - 1] == p;
    }
  }

  /** Reordering either input changes nothing: the outcome is a function of the two memberships. */
  lemma OutcomeForgetsOrder(d: seq<TestIdentity>, a: seq<TestIdentity>, d': seq<TestIdentity>, a': seq<TestIdentity>,
                            config: IdentityConfig, pairs: seq<Pair>, pairs': seq<Pair>)
    requires forall x :: x in d <==> x in d'
    requires forall x :: x in a <==> x in a'
    requires IsOutcome(Scored(d, a, config), pairs)
    requires IsOutcome(Scored(d', a', config), pairs')
    ensures pairs == pairs'
  {
    assert Scored(d, a, config) == Scored(d', a', config);
    OrderedListUnique(pairs, pairs');
  }

  function Flip(p: Pair): Pair { Pair(p.distance, p.after, p.before, p.rank) }

  lemma ScoredFlips(d: seq<TestIdentity>, a: seq<TestIdentity>, config: IdentityConfig, p: Pair)
    requires p in Scored(d, a, config)
    ensures Flip(p) in Scored(a, d, config)
  {
    CombinedDistanceLaws(p.before, p.after, config.maxCompareLength);
    assert Eligible(p.after, p.before, config);
    assert Flip(p) == MakePair(p.after, p.before, config);
  }

  ghost predicate Mirrored(one: set<Pair>, two: set<Pair>) {
    && (forall p :: p in one ==> Flip(p) in two)
    && (forall p :: p in two ==> Flip(p) in one)
  }

  lemma {:induction false} LiveFlips(one: set<Pair>, two: set<Pair>, p: Pair)
    requires Mirrored(one, two)
    ensures Live(one, p) <==> Live(two, Flip(p))
    decreases p.rank
  {
    assert Flip(Flip(p)) == p;
    forall q | q in one && q.rank < p.rank && Touches(q, p)
      ensures Live(one, q) <==> Live(two, Flip(q))
    {
      LiveFlips(one, two, q);
    }
    if Live(two, Flip(p)) {
      forall q | q in one && q.rank < p.rank && Touches(q, p) ensures !Live(one, q) {
        assert Touches(Flip(q), Flip(p));
      }
    }
    if Live(one, p) {
      forall q | q in two && q.rank < p.rank && Touches(q, Flip(p)) ensures !Live(two, q) {
        assert Flip(Flip(q)) == q && Touches(Flip(q), p);
        LiveFlips(one, two, Flip(q));
      }
    }
  }

  lemma AcceptedFlips(one: set<Pair>, two: set<Pair>, p: Pair)
    requires Mirrored(one, two) && Accepted(one, p)
    ensures Accepted(two, Flip(p))
  {
    LiveFlips(one, two, p);
    forall q | Live(two, q) && q.rank == p.rank && Touches(q, Flip(p)) ensures q == Flip(p) {
      LiveFlips(one, two, Flip(q));
      assert Flip(Flip(q)) == q && Touches(Flip(q), p);
    }
  }

  function FlipAll(pairs: seq<Pair>): (r: seq<Pair>)
    ensures |r| == |pairs|
  {
    seq(|pairs|, k requires 0 <= k < |pairs| => Flip(pairs[k]))
  }

  lemma {:induction false} FlipAllAre(pairs: seq<Pair>)
    requires StrictlyOrdered(pairs)
    ensures Sorting.NoRepeats(FlipAll(pairs))
    ensures forall p :: Flip(p) in FlipAll(pairs) <==> p in pairs
  {
    var flipped := FlipAll(pairs);
    forall i, j | 0 <= i < j < |flipped| ensures flipped[i] != flipped[j] {
      assert KeyBefore(pairs[i], pairs[j]);
    }
    forall p ensures Flip(p) in flipped <==> p in pairs {
      if Flip(p) in flipped {
        var k :| 0 <= k < |flipped| && flipped[k] == Flip(p);
        assert Flip(Flip(pairs[k])) == pairs[k];
        assert Flip(Flip(p)) == p;
      }
      if p in pairs {
        var k :| 0 <= k < |pairs| && pairs[k] == p;
        assert flipped[k] == Flip(p);
      }
    }
  }

  lemma {:induction false} StrictFacts(pairs: seq<Pair>)
    requires StrictlyOrdered(pairs)
    ensures Sorting.NoRepeats(pairs) && Sorting.NoTies(multiset(pairs), KeyAtMost)
    ensures forall i, j :: 0 <= i < j < |pairs| ==> KeyAtMost(pairs[i], pairs[j])
  {
    forall x, y | x in multiset(pairs) && y in multiset(pairs) && KeyAtMost(x, y) && KeyAtMost(y, x) ensures x == y {
      var i :| 0 <= i < |pairs| && pairs[i] == x;
      var j :| 0 <= j < |pairs| && pairs[j] == y;
    }
  }

  /** Any listing of the same pairs, sorted by the key, is the list. */
  lemma {:induction false} SortedListing(listing: seq<Pair>, pairs: seq<Pair>)
    requires StrictlyOrdered(pairs) && Sorting.NoRepeats(listing)
    requires forall p :: p in listing <==> p in pairs
    ensures Sorting.SortBy(listing, KeyAtMost) == pairs
  {
    var sorted := Sorting.SortBy(listing, KeyAtMost);
    StrictFacts(pairs);
    Sorting.SortElements(listing, KeyAtMost);
    Sorting.SameElements(sorted, listing);
    Sorting.ReorderWithoutRepeats(listing, sorted);
    assert forall p :: p in multiset(listing) ==> p in listing;
    Sorting.SortBySorts(listing, KeyAtMost);
    forall i, j | 0 <= i < j < |sorted| ensures KeyAtMost(sorted[i], sorted[j]) {
      Sorting.SortedIndex(sorted, KeyAtMost, i, j);
    }
    Sorting.ArrangedUnique(pairs, sorted, KeyAtMost);
  }

  /** Swapping the two inputs gives the same pairs reversed, listed by the key they then have. */
  lemma {:induction false} OutcomeFlips(d: seq<TestIdentity>, a: seq<TestIdentity>, config: IdentityConfig,
                                        pairs: seq<Pair>, swapped: seq<Pair>)
    requires IsOutcome(Scored(d, a, config), pairs)
    requires IsOutcome(Scored(a, d, config), swapped)
    ensures swapped == Sorting.SortBy(FlipAll(pairs), KeyAtMost)
  {
    var one, two := Scored(d, a, config), Scored(a, d, config);
    forall p | p in one ensures Flip(p) in two { ScoredFlips(d, a, config, p); }
    forall p | p in two ensures Flip(p) in one { ScoredFlips(a, d, config, p); }
    FlipAllAre(pairs);
    forall p ensures p in FlipAll(pairs) <==> p in swapped {
      var q := Flip(p);
      assert Flip(q) == p;
      if Accepted(one, q) { AcceptedFlips(one, two, q); }
      if Accepted(two, p) { AcceptedFlips(two, one, p); }
    }
    SortedListing(FlipAll(pairs), swapped);
  }
}

/** The numbers rename detection works with, without the recurrence, the constants or the rounding by name. */
module DistanceFacts {
  import opened Models
  import opened Levenshtein
  import opened Truncation
  import opened Similarity
  import opened Renames

  // ---- one distance ------------------------------------------------------

  function Compared(s: string, n: nat): string { if |s| < n then s else s[..n] }

  lemma {:induction false} ComparedIs(s: string, n: nat)
    ensures Trunc(s, n) == Compared(s, n)
  {
    if |s| == n { assert s[..n] == s; }
  }

  /** The shortest script of the compared parts over the longer of them, and zero if both are empty. */
  lemma {:induction false} NormalizedIs(a: string, b: string, n: nat, d: nat)
    requires IsShortest(Compared(a, n), Compared(b, n), d)
    ensures var x, y := |Compared(a, n)|, |Compared(b, n)|;
      NormalizedDistance(a, b, n) ==
        if x == 0 && y == 0 then 0.0 else d as real / (if x >= y then x as real else y as real)
  {
    ComparedIs(a, n);
    ComparedIs(b, n);
    LevIsShortest(Compared(a, n), Compared(b, n), d);
  }

  ghost predicate NothingShared(a: string, b: string) { forall c :: c in a ==> c !in b }

  lemma {:induction false} UnlikeIsLongest(a: string, b: string)
    requires NothingShared(a, b)
    ensures Lev(a, b) == if |a| < |b| then |b| else |a|
    decreases |a| + |b|
  {
    if a != "" && b != "" {
      assert a[|a| - 1] in a && b[|b| - 1] in b;
      assert forall c :: c in Init(a) ==> c in a;
      assert forall c :: c in Init(b) ==> c in b;
      UnlikeIsLongest(Init(a), b);
      UnlikeIsLongest(a, Init(b));
      UnlikeIsLongest(Init(a), Init(b));
    }
  }

  lemma {:induction false} StillUnlike(a: string, b: string, x: string, y: string)
    requires NothingShared(a, b) && x <= a && y <= b
    ensures NothingShared(x, y)
  {
    forall c | c in x ensures c !in y {
      assert c in a && (c in y ==> c in b);
    }
  }

  /** Names that share no character are at distance one, the farthest there is. */
  lemma {:induction false} UnlikeIsFarthest(a: string, b: string, n: nat)
    requires n > 0 && (a != "" || b != "") && NothingShared(a, b)
    ensures NormalizedDistance(a, b, n) == 1.0
  {
    var x, y := Compared(a, n), Compared(b, n);
    ComparedIs(a, n);
    ComparedIs(b, n);
    StillUnlike(a, b, x, y);
    UnlikeIsLongest(x, y);
    assert Distance(a, b, n) == Max(|x|, |y|) > 0;
    FractionBounds(Max(|x|, |y|), Max(|x|, |y|));
  }

  /** Half of it for the name, half for the suite path. */
  lemma {:induction false} CombinedIs(before: TestIdentity, after: TestIdentity, n: nat)
    ensures CombinedDistance(before, after, n) ==
      (NormalizedDistance(before.testName, after.testName, n)
       + NormalizedDistance(before.suitePath, after.suitePath, n)) / 2.0
  {
  }

  // ---- what counts as a tie ----------------------------------------------

  /** The rank is the nearest whole number of billionths, the even one if two are equally near. */
  lemma {:induction false} RankIs(distance: real)
    requires 0.0 <= distance
    ensures var gap := distance * 1000000000.0 - Rank(distance) as real;
      && -0.5 <= gap <= 0.5
      && (gap == 0.5 || gap == -0.5 ==> exists k: nat :: Rank(distance) == 2 * k)
  {
    var rank := Rank(distance);
    var scaled := distance * 1000000000.0;
    if scaled - rank as real == 0.5 || scaled - rank as real == -0.5 {
      assert rank % 2 == 0;
      assert rank == 2 * (rank / 2);
    }
  }

  // ---- which pairs are considered ----------------------------------------

  /** A scored pair takes one test from each side, of equal parameters and different fingerprints, at a distance within
      the ceiling; and every such two tests are scored. */
  lemma {:induction false} ScoredIff(d: seq<TestIdentity>, a: seq<TestIdentity>, config: IdentityConfig,
                                     before: TestIdentity, after: TestIdentity)
    ensures (exists p :: p in Scored(d, a, config) && p.before == before && p.after == after) <==>
      && before in d && after in a
      && before.parameters == after.parameters && before.fingerprint != after.fingerprint
      && CombinedDistance(before, after, config.maxCompareLength) <= config.aliasMaxDistance
  {
    if before in d && after in a && Eligible(before, after, config) {
      var p := MakePair(before, after, config);
      assert p in Scored(d, a, config) && p.before == before && p.after == after;
    }
  }

  lemma {:induction false} ScoredPairIs(d: seq<TestIdentity>, a: seq<TestIdentity>, config: IdentityConfig, p: Pair)
    requires p in Scored(d, a, config)
    ensures p.distance == CombinedDistance(p.before, p.after, config.maxCompareLength) >= 0.0
    ensures p.rank == Rank(p.distance)
  {
    CombinedDistanceLaws(p.before, p.after, config.maxCompareLength);
  }

  // ---- the outcome -------------------------------------------------------

  predicate Share(p: Pair, q: Pair) {
    || p.before.fingerprint == q.before.fingerprint || p.before.fingerprint == q.after.fingerprint
    || p.after.fingerprint == q.before.fingerprint || p.after.fingerprint == q.after.fingerprint
  }

  lemma {:induction false} TouchesIff(p: Pair, q: Pair)
    ensures Touches(p, q) <==> Share(p, q)
  {
    if Share(p, q) {
      if p.before.fingerprint in Ends(q) {
        assert p.before.fingerprint in Ends(p) * Ends(q);
      } else {
        assert p.after.fingerprint in Ends(p) * Ends(q);
      }
    }
    if Touches(p, q) {
      var f :| f in Ends(p) * Ends(q);
    }
  }

  /** No test is in two accepted pairs. */
  lemma {:induction false} AcceptedApart(scored: set<Pair>, p: Pair, q: Pair)
    requires Accepted(scored, p) && Accepted(scored, q) && p != q
    ensures !Share(p, q)
  {
    TouchesIff(p, q);
    if Share(p, q) {
      AcceptedIsMatching(scored, p, q);
      assert false;
    }
  }

  /** A pair that shares no test with any other is accepted, whatever its distance. */
  lemma {:induction false} AloneIsAccepted(scored: set<Pair>, p: Pair)
    requires p in scored && forall q :: q in scored && q != p ==> !Share(q, p)
    ensures Accepted(scored, p)
  {
    forall q | q in scored && q != p ensures !Touches(q, p) { TouchesIff(q, p); }
  }

  /** The closest of the pairs that share a test with it is accepted, if the next is farther by a rank. */
  lemma {:induction false} ClosestIsAccepted(scored: set<Pair>, p: Pair)
    requires p in scored && forall q :: q in scored && q != p && Share(q, p) ==> p.rank < q.rank
    ensures Accepted(scored, p)
  {
    forall q | q in scored && q != p ensures Touches(q, p) ==> p.rank < q.rank { TouchesIff(q, p); }
  }

  /** The outcome is listed by rank, then by the old fingerprint, then by the new one. */
  lemma {:induction false} OutcomeOrder(scored: set<Pair>, pairs: seq<Pair>, i: nat, j: nat)
    requires IsOutcome(scored, pairs) && i < j < |pairs|
    ensures pairs[i].rank <= pairs[j].rank
    ensures pairs[i].rank == pairs[j].rank ==> pairs[i].before.fingerprint < pairs[j].before.fingerprint
  {
    assert KeyBefore(pairs[i], pairs[j]);
    assert pairs[i] in pairs && pairs[j] in pairs;
    if pairs[i].before.fingerprint == pairs[j].before.fingerprint {
      assert pairs[i] != pairs[j];
      AcceptedApart(scored, pairs[i], pairs[j]);
      assert false;
    }
  }
}

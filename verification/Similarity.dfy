/** identity/similarity.py: bounded edit distance by a rolling row, and its normalisation.
    `n` is MAX_COMPARE_LENGTH throughout. */
module Similarity {
  import opened Levenshtein
  import opened Truncation

  /** The distance the row computes, as a function of both inputs. */
  ghost function Distance(left: string, right: string, n: nat): nat {
    Lev(Trunc(left, n), Trunc(right, n))
  }

  /** One rolling row: `previous` holds the distances of a prefix of `first` to every prefix of
      `second`, and the result holds those of the prefix that is one character longer. */
  method NextRow(first: string, second: string, row: nat, previous: seq<nat>) returns (current: seq<nat>)
    requires 1 <= row <= |first|
    requires |previous| == |second| + 1
    requires forall j :: 0 <= j <= |second| ==> previous[j] == Lev(first[..row - 1], second[..j])
    ensures |current| == |second| + 1
    ensures forall j :: 0 <= j <= |second| ==> current[j] == Lev(first[..row], second[..j])
  {
    current := [row];
    assert Lev(first[..row], second[..0]) == row;
    var column := 1;
    while column <= |second|
      invariant 1 <= column <= |second| + 1
      invariant |current| == column
      invariant forall j :: 0 <= j < column ==> current[j] == Lev(first[..row], second[..j])
    {
      var substitution := if first[row - 1] != second[column - 1] then 1 else 0;
      var cell := Min(Min(previous[column] + 1, current[column - 1] + 1), previous[column - 1] + substitution);
      assert cell == Lev(first[..row], second[..column]) by {
        assert Init(first[..row]) == first[..row - 1];
        assert Init(second[..column]) == second[..column - 1];
      }
      current := current + [cell];
      column := column + 1;
    }
  }

  method RollingRow(first: string, second: string) returns (distance: nat)
    ensures distance == Lev(first, second)
  {
    var previous := seq(|second| + 1, j => j);
    assert forall j :: 0 <= j <= |second| ==> Lev(first[..0], second[..j]) == j;
    var row := 1;
    while row <= |first|
      invariant 1 <= row <= |first| + 1
      invariant |previous| == |second| + 1
      invariant forall j :: 0 <= j <= |second| ==> previous[j] == Lev(first[..row - 1], second[..j])
    {
      previous := NextRow(first, second, row, previous);
      row := row + 1;
    }
    distance := previous[|previous| - 1];
    assert distance == Lev(first[..|first|], second[..|second|]);
    assert first[..|first|] == first && second[..|second|] == second;
  }

  method EditDistance(left: string, right: string, n: nat) returns (distance: nat)
    ensures IsShortest(Trunc(left, n), Trunc(right, n), distance)
    ensures distance == Distance(left, right, n)
  {
    var first, second := Trunc(left, n), Trunc(right, n);
    LevIsShortest(first, second, Lev(first, second));
    LevZero(first, second);
    if first == second {
      return 0;
    }
    if first == "" {
      return |second|;
    }
    if second == "" {
      return |first|;
    }
    LevSymmetric(first, second);
    if |first| < |second| {
      first, second := second, first;
    }
    distance := RollingRow(first, second);
  }

  /** The distance as a fraction of the longer compared length. */
  ghost function NormalizedDistance(left: string, right: string, n: nat): real {
    if left == "" && right == "" then 0.0
    else
      var longest := Max(|Trunc(left, n)|, |Trunc(right, n)|);
      if longest == 0 then 0.0 else Distance(left, right, n) as real / longest as real
  }

  method MeasureNormalized(left: string, right: string, n: nat) returns (r: real)
    ensures r == NormalizedDistance(left, right, n)
  {
    if left == "" && right == "" {
      return 0.0;
    }
    var distance := EditDistance(left, right, n);
    var longest := Max(|Trunc(left, n)|, |Trunc(right, n)|);
    r := if longest != 0 then distance as real / longest as real else 0.0;
  }

  lemma FractionBounds(p: nat, q: nat)
    requires 0 < q && p <= q
    ensures 0.0 <= p as real / q as real <= 1.0
    ensures p as real / q as real == 0.0 <==> p == 0
    ensures p as real / q as real == 1.0 <==> p == q
  {
  }

  /** The distance is a pseudometric on all strings, and a metric on the compared prefixes. */
  lemma DistanceIsMetric(a: string, b: string, c: string, n: nat)
    ensures Distance(a, b, n) == 0 <==> Trunc(a, n) == Trunc(b, n)
    ensures Distance(a, b, n) == Distance(b, a, n)
    ensures Distance(a, c, n) <= Distance(a, b, n) + Distance(b, c, n)
  {
    LevZero(Trunc(a, n), Trunc(b, n));
    LevSymmetric(Trunc(a, n), Trunc(b, n));
    LevTriangle(Trunc(a, n), Trunc(b, n), Trunc(c, n));
  }

  /** Normalising keeps symmetry, stays in the unit interval, and is zero only on equal prefixes. */
  lemma NormalizedDistanceLaws(a: string, b: string, n: nat)
    ensures 0.0 <= NormalizedDistance(a, b, n) <= 1.0
    ensures NormalizedDistance(a, b, n) == NormalizedDistance(b, a, n)
    ensures NormalizedDistance(a, b, n) == 0.0 <==> Trunc(a, n) == Trunc(b, n)
  {
    var ta, tb := Trunc(a, n), Trunc(b, n);
    LevBounds(ta, tb);
    DistanceIsMetric(a, b, a, n);
    var longest := Max(|ta|, |tb|);
    if longest > 0 {
      FractionBounds(Distance(a, b, n), longest);
    }
  }
}

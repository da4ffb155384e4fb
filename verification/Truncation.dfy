/** What comparing only the first `n` characters does to the distance. It can increase it:
    exactly when it can, and by how much at most. */
module Truncation {
  import opened Levenshtein

  function Trunc(s: string, n: nat): (r: string)
    ensures |r| == Min(|s|, n)
    ensures r <= s
  {
    if |s| <= n then s else s[..n]
  }

  function Gap(x: int, y: int): nat { if x < y then y - x else x - y }

  /** A cheapest alignment of `a` with `b` crosses position `i` of `a` opposite some `j` of `b`. */
  lemma {:induction false} Crossing(a: string, b: string, i: nat) returns (j: nat)
    requires i <= |a|
    ensures j <= |b|
    ensures Lev(a[..i], b[..j]) + Gap(|a| - i, |b| - j) <= Lev(a, b)
    decreases |a| + |b|
  {
    if |a| == i {
      assert a[..i] == a && b[..|b|] == b;
      j := |b|;
    } else if b == "" {
      LevBounds(a[..i], b);
      assert b[..0] == "" && Lev(a[..i], "") == i by { LevBounds(a[..i], ""); }
      j := 0;
    } else if Lev(a, b) == Lev(Init(a), b) + 1 {
      j := Crossing(Init(a), b, i);
      assert Init(a)[..i] == a[..i];
    } else if Lev(a, b) == Lev(a, Init(b)) + 1 {
      j := Crossing(a, Init(b), i);
      assert Init(b)[..j] == b[..j];
    } else {
      j := Crossing(Init(a), Init(b), i);
      assert Init(a)[..i] == a[..i] && Init(b)[..j] == b[..j];
    }
  }

  /** Extending one string costs at most the length of the extension. */
  lemma {:induction false} Extend(a: string, b: string, j: nat)
    requires j <= |b|
    ensures Lev(a, b) <= Lev(a, b[..j]) + (|b| - j)
    ensures Lev(a, b[..j]) <= Lev(a, b) + (|b| - j)
    decreases |b|
  {
    LevBounds(b[..j], b);
    PrefixDistance(b, j);
    LevSymmetric(b[..j], b);
    LevTriangle(a, b[..j], b);
    LevTriangle(a, b, b[..j]);
  }

  lemma {:induction false} PrefixDistance(b: string, j: nat)
    requires j <= |b|
    ensures Lev(b[..j], b) == |b| - j
    decreases |b|
  {
    if j == |b| {
      assert b[..j] == b;
      LevZero(b, b);
    } else if j > 0 {
      PrefixDistance(Init(b), j);
      assert Init(b)[..j] == b[..j];
      LevBounds(b[..j], b);
    } else {
      assert b[..0] == "";
    }
  }

  /** The common core: the truncated distance against a crossing of the longer string. */
  lemma TruncatedBound(a: string, b: string, n: nat) returns (j: nat)
    requires |b| <= |a| && n < |a|
    ensures j <= |b|
    ensures Lev(a[..n], b[..j]) + Gap(|a| - n, |b| - j) <= Lev(a, b)
    ensures Lev(Trunc(a, n), Trunc(b, n)) <= Lev(a[..n], b[..j]) + Gap(Min(|b|, n), j)
  {
    j := Crossing(a, b, n);
    var tb := Trunc(b, n);
    if j <= |tb| {
      assert tb[..j] == b[..j];
      Extend(a[..n], tb, j);
    } else {
      assert b[..j][..|tb|] == tb;
      Extend(a[..n], b[..j], |tb|);
    }
  }

  /** Truncation at most doubles the distance. */
  lemma TruncationAtMostDoubles(a: string, b: string, n: nat)
    ensures Lev(Trunc(a, n), Trunc(b, n)) <= 2 * Lev(a, b)
    decreases |b| - |a|
  {
    if |a| < |b| {
      TruncationAtMostDoubles(b, a, n);
      LevSymmetric(a, b);
      LevSymmetric(Trunc(a, n), Trunc(b, n));
    } else if n < |a| {
      var j := TruncatedBound(a, b, n);
      LevBounds(a[..n], b[..j]);
      LevBounds(a, b);
    }
  }

  /** The lengths at which truncating to `n` can make two strings look less similar. */
  predicate CanIncrease(m: nat, k: nat, n: nat) {
    n < Max(m, k) && 0 < Gap(m, k) < n
  }

  lemma NeverIncreasesOrdered(a: string, b: string, n: nat)
    requires |b| <= |a| && !CanIncrease(|a|, |b|, n)
    ensures Lev(Trunc(a, n), Trunc(b, n)) <= Lev(a, b)
  {
    if |a| == |b| && n < |a| {
      var j := TruncatedBound(a, b, n);
    } else if n < |a| {
      LevBounds(a, b);
      LevBounds(Trunc(a, n), Trunc(b, n));
    }
  }

  lemma TruncationNeverIncreases(a: string, b: string, n: nat)
    requires !CanIncrease(|a|, |b|, n)
    ensures Lev(Trunc(a, n), Trunc(b, n)) <= Lev(a, b)
  {
    if |a| < |b| {
      NeverIncreasesOrdered(b, a, n);
      LevSymmetric(a, b);
      LevSymmetric(Trunc(a, n), Trunc(b, n));
    } else {
      NeverIncreasesOrdered(a, b, n);
    }
  }

  // ---- witnesses for every pair of lengths -------------------------------

  function Repeat(c: char, n: nat): (s: string)
    ensures |s| == n
    ensures forall i :: 0 <= i < n ==> s[i] == c
  {
    seq(n, _ => c)
  }

  function Count(s: string, c: char): nat {
    if s == "" then 0 else Count(Init(s), c) + (if s[|s| - 1] == c then 1 else 0)
  }

  /** Every occurrence of a character the other string lacks costs an edit. */
  lemma {:induction false} CountBound(a: string, b: string, c: char)
    requires c !in b
    ensures Count(a, c) <= Lev(a, b)
    decreases |a| + |b|
  {
    if a == "" {
    } else if b == "" {
      CountBound(Init(a), b, c);
      LevBounds(a, b);
      LevBounds(Init(a), b);
    } else {
      CountBound(Init(a), b, c);
      CountBound(a, Init(b), c);
      CountBound(Init(a), Init(b), c);
    }
  }

  lemma {:induction false} CountSplit(a: string, b: string, c: char)
    ensures Count(a + b, c) == Count(a, c) + Count(b, c)
    decreases |b|
  {
    if b == "" {
      assert a + b == a;
    } else {
      assert Init(a + b) == a + Init(b);
      CountSplit(a, Init(b), c);
    }
  }

  lemma {:induction false} CountRepeat(c: char, n: nat)
    ensures Count(Repeat(c, n), c) == n
  {
    if n > 0 {
      assert Init(Repeat(c, n)) == Repeat(c, n - 1);
      CountRepeat(c, n - 1);
    }
  }

  lemma PrependDistance(p: string, s: string)
    ensures Lev(p + s, s) <= |p|
  {
    LevBounds(p, "");
    LevCommonTail(p, "", s);
    assert "" + s == s;
  }

  /** If the last characters differ, that costs one more edit. */
  lemma LastDiffers(a: string, b: string, c: char)
    requires a != "" && b != "" && c !in b
    requires a[|a| - 1] != c && a[|a| - 1] != b[|b| - 1]
    ensures Count(a, c) < Lev(a, b)
  {
    CountBound(Init(a), b, c);
    CountBound(a, Init(b), c);
    CountBound(Init(a), Init(b), c);
  }

  /** `d` leading x's and a last character that does not match cost more than `d` edits. */
  lemma {:induction false} PaddedApart(d: nat, s: string, b: string)
    requires s != "" && b != "" && 'x' !in b && 'x' !in s && s[|s| - 1] != b[|b| - 1]
    ensures d < Lev(Repeat('x', d) + s, b)
  {
    CountSplit(Repeat('x', d), s, 'x');
    CountRepeat('x', d);
    assert (Repeat('x', d) + s)[d + |s| - 1] == s[|s| - 1];
    LastDiffers(Repeat('x', d) + s, b, 'x');
  }

  lemma {:induction false} Witness(m: nat, k: nat, n: nat) returns (a: string, b: string)
    requires k < m && CanIncrease(m, k, n)
    ensures |a| == m && |b| == k
    ensures Lev(a, b) <= m - k && Lev(a, b) < Lev(Trunc(a, n), Trunc(b, n))
  {
    var d := m - k;
    var last := Min(k, n);
    b := Repeat('z', k)[last - 1 := 'y'];
    a := Repeat('x', d) + b;
    PrependDistance(Repeat('x', d), b);
    assert Trunc(a, n) == Repeat('x', d) + b[..n - d];
    assert Trunc(b, n)[last - 1] == 'y';
    PaddedApart(d, b[..n - d], Trunc(b, n));
  }

  /** For every bound from two on, some strings at distance one are at distance two when cut. */
  lemma {:induction false} DoublingIsReached(n: nat) returns (a: string, b: string)
    requires n >= 2
    ensures Lev(a, b) == 1 && Lev(Trunc(a, n), Trunc(b, n)) == 2
  {
    a, b := Witness(n + 1, n, n);
    LevZero(a, b);
    TruncationAtMostDoubles(a, b, n);
  }

  ghost predicate Doubled(a: string, b: string, n: nat) {
    Lev(a, b) > 0 && Lev(Trunc(a, n), Trunc(b, n)) == 2 * Lev(a, b)
  }

  /** Below that, no distance is doubled: what is compared is too short. */
  lemma {:induction false} DoublingIsReachedIff(n: nat)
    ensures (exists a, b :: Doubled(a, b, n)) <==> n >= 2
  {
    if n >= 2 {
      var a, b := DoublingIsReached(n);
      assert Doubled(a, b, n);
    }
    if a, b :| Doubled(a, b, n) {
      LevBounds(Trunc(a, n), Trunc(b, n));
    }
  }

  ghost predicate SomeIncrease(m: nat, k: nat, n: nat) {
    exists a, b :: |a| == m && |b| == k && Lev(a, b) < Lev(Trunc(a, n), Trunc(b, n))
  }

  /** The exact condition, readable from the two lengths before any comparison is made. */
  lemma TruncationCanIncreaseIff(m: nat, k: nat, n: nat)
    ensures SomeIncrease(m, k, n) <==> CanIncrease(m, k, n)
  {
    if CanIncrease(m, k, n) {
      if k < m {
        var a, b := Witness(m, k, n);
      } else {
        var b, a := Witness(k, m, n);
        LevSymmetric(a, b);
        LevSymmetric(Trunc(a, n), Trunc(b, n));
        assert |a| == m && |b| == k;
      }
    } else if SomeIncrease(m, k, n) {
      var a, b :| |a| == m && |b| == k && Lev(a, b) < Lev(Trunc(a, n), Trunc(b, n));
      TruncationNeverIncreases(a, b, n);
      assert false;
    }
  }
}

/** The distance recurrence, and what it means: the length of a shortest script of
    single-character insertions, deletions and replacements. */
module Levenshtein {

  function Min(x: nat, y: nat): nat { if x < y then x else y }

  function Max(x: nat, y: nat): nat { if x < y then y else x }

  function Init(s: string): string
    requires s != ""
  {
    s[..|s| - 1]
  }

  function Cost(a: string, b: string): nat
    requires a != "" && b != ""
  {
    if a[|a| - 1] == b[|b| - 1] then 0 else 1
  }

  /** The recurrence the rolling row evaluates. */
  function Lev(a: string, b: string): nat
    decreases |a| + |b|
  {
    if a == "" then |b|
    else if b == "" then |a|
    else
      Min(Min(Lev(Init(a), b) + 1, Lev(a, Init(b)) + 1), Lev(Init(a), Init(b)) + Cost(a, b))
  }

  // ---- metric laws -------------------------------------------------------

  /** The distance is at least the difference of the lengths and at most the longer one. */
  lemma {:induction false} LevBounds(a: string, b: string)
    ensures |a| <= |b| + Lev(a, b) && |b| <= |a| + Lev(a, b)
    ensures Lev(a, b) <= Max(|a|, |b|)
    decreases |a| + |b|
  {
    if a != "" && b != "" {
      LevBounds(Init(a), b);
      LevBounds(a, Init(b));
      LevBounds(Init(a), Init(b));
    }
  }

  lemma {:induction false} LevZero(a: string, b: string)
    ensures Lev(a, b) == 0 <==> a == b
    decreases |a|
  {
    if a != "" && b != "" {
      LevZero(Init(a), Init(b));
      assert a == Init(a) + [a[|a| - 1]] && b == Init(b) + [b[|b| - 1]];
    }
  }

  lemma {:induction false} LevSymmetric(a: string, b: string)
    ensures Lev(a, b) == Lev(b, a)
    decreases |a| + |b|
  {
    if a != "" && b != "" {
      LevSymmetric(Init(a), b);
      LevSymmetric(a, Init(b));
      LevSymmetric(Init(a), Init(b));
    }
  }

  lemma {:induction false} LevTriangle(a: string, b: string, c: string)
    ensures Lev(a, c) <= Lev(a, b) + Lev(b, c)
    decreases |a| + |b| + |c|
  {
    if a == "" || b == "" || c == "" {
      LevBounds(a, b);
      LevBounds(b, c);
      LevBounds(a, c);
    } else {
      LevTriangle(Init(a), b, c);
      LevTriangle(a, b, Init(c));
      LevTriangle(a, Init(b), c);
      LevTriangle(a, Init(b), Init(c));
      LevTriangle(Init(a), Init(b), c);
      LevTriangle(Init(a), Init(b), Init(c));
    }
  }

  // ---- edit scripts ------------------------------------------------------

  datatype Edit = Insert(at: nat, c: char) | Delete(at: nat) | Replace(at: nat, c: char)

  predicate Applies(e: Edit, s: string) {
    if e.Insert? then e.at <= |s| else e.at < |s|
  }

  function Apply(e: Edit, s: string): string
    requires Applies(e, s)
  {
    match e
    case Insert(at, c) => s[..at] + [c] + s[at..]
    case Delete(at) => s[..at] + s[at + 1..]
    case Replace(at, c) => s[..at] + [c] + s[at + 1..]
  }

  /** Performing the edits of `script` one after the other on `a` gives `b`. */
  predicate Turns(script: seq<Edit>, a: string, b: string) {
    if script == [] then a == b
    else Applies(script[0], a) && Turns(script[1..], Apply(script[0], a), b)
  }

  lemma {:induction false} TurnsThen(first: seq<Edit>, second: seq<Edit>, a: string, b: string, c: string)
    requires Turns(first, a, b) && Turns(second, b, c)
    ensures Turns(first + second, a, c)
  {
    var script := first + second;
    if first == [] {
      assert script == second;
    } else {
      assert script[0] == first[0] && script[1..] == first[1..] + second;
      TurnsThen(first[1..], second, Apply(first[0], a), b, c);
    }
  }

  /** A script works unchanged on a string with one more character at the end. */
  lemma {:induction false} TurnsBefore(script: seq<Edit>, a: string, b: string, z: char)
    requires Turns(script, a, b)
    ensures Turns(script, a + [z], b + [z])
  {
    if script != [] {
      var e := script[0];
      assert Apply(e, a + [z]) == Apply(e, a) + [z];
      TurnsBefore(script[1..], Apply(e, a), b, z);
    }
  }

  lemma OneEdit(e: Edit, a: string)
    requires Applies(e, a)
    ensures Turns([e], a, Apply(e, a))
  {
    assert [e][1..] == [];
  }

  /** Some script of exactly `Lev(a, b)` edits turns `a` into `b`. */
  lemma {:induction false} ShortScript(a: string, b: string) returns (script: seq<Edit>)
    ensures Turns(script, a, b) && |script| == Lev(a, b)
    decreases |a| + |b|
  {
    if a == "" && b == "" {
      script := [];
    } else if a == "" {
      script := ShortScript(a, Init(b));
      script := AppendLast(script, a, b);
    } else if b == "" {
      script := ShortScript(Init(a), b);
      script := DropLast(script, a, b);
    } else if Lev(a, b) == Lev(Init(a), b) + 1 {
      script := ShortScript(Init(a), b);
      script := DropLast(script, a, b);
    } else if Lev(a, b) == Lev(a, Init(b)) + 1 {
      script := ShortScript(a, Init(b));
      script := AppendLast(script, a, b);
    } else {
      script := ShortScript(Init(a), Init(b));
      script := MatchLast(script, a, b);
    }
  }

  lemma DropLast(s: seq<Edit>, a: string, b: string) returns (script: seq<Edit>)
    requires a != "" && Turns(s, Init(a), b)
    ensures Turns(script, a, b) && |script| == |s| + 1
  {
    var e := Delete(|a| - 1);
    OneEdit(e, a);
    assert Apply(e, a) == Init(a);
    TurnsThen([e], s, a, Init(a), b);
    script := [e] + s;
  }

  lemma AppendLast(s: seq<Edit>, a: string, b: string) returns (script: seq<Edit>)
    requires b != "" && Turns(s, a, Init(b))
    ensures Turns(script, a, b) && |script| == |s| + 1
  {
    var e := Insert(|b| - 1, b[|b| - 1]);
    OneEdit(e, Init(b));
    assert Apply(e, Init(b)) == b;
    TurnsThen(s, [e], a, Init(b), b);
    script := s + [e];
  }

  lemma {:induction false} ReplaceLast(a: string, b: string)
    requires a != "" && b != "" && Init(a) == Init(b)
    ensures var e := Replace(|b| - 1, b[|b| - 1]); Turns([e], a, b)
  {
    var e := Replace(|b| - 1, b[|b| - 1]);
    assert |a| == |Init(a)| + 1 && |b| == |Init(b)| + 1;
    OneEdit(e, a);
    assert a[..|a| - 1] == b[..|b| - 1] && a[|a|..] == [];
    assert Apply(e, a) == b;
  }

  lemma {:induction false} MatchLast(s: seq<Edit>, a: string, b: string) returns (script: seq<Edit>)
    requires a != "" && b != "" && Turns(s, Init(a), Init(b))
    ensures Turns(script, a, b) && |script| == |s| + Cost(a, b)
  {
    var z := a[|a| - 1];
    var middle := Init(b) + [z];
    TurnsBefore(s, Init(a), Init(b), z);
    assert Init(a) + [z] == a;
    if Cost(a, b) == 0 {
      assert middle == b;
      script := s;
    } else {
      assert Init(middle) == Init(b);
      ReplaceLast(middle, b);
      script := s + [Replace(|b| - 1, b[|b| - 1])];
      TurnsThen(s, [Replace(|b| - 1, b[|b| - 1])], a, middle, b);
    }
  }

  /** Appending the same text to both strings cannot increase the distance. */
  lemma {:induction false} LevCommonTail(a: string, b: string, t: string)
    ensures Lev(a + t, b + t) <= Lev(a, b)
    decreases |t|
  {
    if t == "" {
      assert a + t == a && b + t == b;
    } else {
      var z := t[|t| - 1];
      assert Init(a + t) == a + Init(t) && Init(b + t) == b + Init(t);
      LevCommonTail(a, b, Init(t));
      assert Cost(a + t, b + t) == 0;
    }
  }

  lemma OneMore(p: string, c: char, t: string, short: string, long: string)
    requires short == p + t && long == p + [c] + t
    ensures Lev(short, long) <= 1 && Lev(long, short) <= 1
  {
    LevZero(p, p);
    assert Init(p + [c]) == p;
    assert p != "" ==> Lev(p, p + [c]) <= Lev(p, Init(p + [c])) + 1;
    LevCommonTail(p, p + [c], t);
    LevSymmetric(p + t, p + [c] + t);
  }

  lemma OneChanged(p: string, c: char, d: char, t: string, one: string, two: string)
    requires one == p + [c] + t && two == p + [d] + t
    ensures Lev(one, two) <= 1
  {
    LevZero(p, p);
    assert Init(p + [c]) == p && Init(p + [d]) == p;
    LevCommonTail(p + [c], p + [d], t);
  }

  /** One edit moves a string by at most one. */
  lemma EditIsShort(e: Edit, a: string, b: string)
    requires Applies(e, a) && b == Apply(e, a)
    ensures Lev(a, b) <= 1
  {
    if e.Insert? {
      OneMore(a[..e.at], e.c, a[e.at..], a, b);
    } else if e.Delete? {
      OneMore(a[..e.at], a[e.at], a[e.at + 1..], b, a);
    } else {
      OneChanged(a[..e.at], a[e.at], e.c, a[e.at + 1..], a, b);
    }
  }

  /** No script is shorter than `Lev`. */
  lemma {:induction false} NoShorterScript(script: seq<Edit>, a: string, b: string)
    requires Turns(script, a, b)
    ensures Lev(a, b) <= |script|
  {
    if script == [] {
      LevZero(a, b);
    } else {
      var next := Apply(script[0], a);
      NoShorterScript(script[1..], next, b);
      EditIsShort(script[0], a, next);
      LevTriangle(a, next, b);
    }
  }

  ghost predicate HasScript(a: string, b: string, n: nat) {
    exists script :: Turns(script, a, b) && |script| == n
  }

  /** `n` is the length of a shortest script from `a` to `b`. */
  ghost predicate IsShortest(a: string, b: string, n: nat) {
    && HasScript(a, b, n)
    && forall script :: Turns(script, a, b) ==> n <= |script|
  }

  /** The recurrence is the shortest-script length, and nothing else is. */
  lemma LevIsShortest(a: string, b: string, n: nat)
    ensures IsShortest(a, b, n) <==> n == Lev(a, b)
  {
    var best := ShortScript(a, b);
    forall script | Turns(script, a, b) ensures Lev(a, b) <= |script| {
      NoShorterScript(script, a, b);
    }
    assert HasScript(a, b, Lev(a, b));
    if IsShortest(a, b, n) {
      var script :| Turns(script, a, b) && |script| == n;
    }
  }
}

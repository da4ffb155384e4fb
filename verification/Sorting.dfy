/** Sorting by a comparison, with the fact every order-insensitivity result rests on:
    a sorted arrangement of a multiset is unique when ties are impossible. */
module Sorting {

  /** The comparison is total and transitive on the elements of `s`. */
  ghost predicate Ranks<T(!new)>(s: multiset<T>, le: (T, T) -> bool) {
    && (forall x, y :: x in s && y in s ==> le(x, y) || le(y, x))
    && (forall x, y, z :: x in s && y in s && z in s && le(x, y) && le(y, z) ==> le(x, z))
  }

  /** No two different elements of `s` tie. */
  ghost predicate NoTies<T(!new)>(s: multiset<T>, le: (T, T) -> bool) {
    forall x, y :: x in s && y in s && le(x, y) && le(y, x) ==> x == y
  }

  ghost predicate Below<T(!new)>(x: T, s: multiset<T>, le: (T, T) -> bool) {
    forall y :: y in s ==> le(x, y)
  }

  ghost predicate SortedBy<T(!new)>(s: seq<T>, le: (T, T) -> bool) {
    s != [] ==> Below(s[0], multiset(s[1..]), le) && SortedBy(s[1..], le)
  }

  lemma Cons<T>(s: seq<T>)
    requires s != []
    ensures s == [s[0]] + s[1..]
    ensures multiset(s) == multiset{s[0]} + multiset(s[1..])
  {
    assert s == [s[0]] + s[1..];
  }

  function InsertBy<T>(x: T, s: seq<T>, le: (T, T) -> bool): seq<T> {
    if s == [] then [x]
    else if le(x, s[0]) then [x] + s
    else [s[0]] + InsertBy(x, s[1..], le)
  }

  lemma {:induction false} InsertElements<T>(x: T, s: seq<T>, le: (T, T) -> bool)
    ensures multiset(InsertBy(x, s, le)) == multiset{x} + multiset(s)
  {
    if s != [] {
      Cons(s);
      InsertElements(x, s[1..], le);
    }
  }

  function SortBy<T>(s: seq<T>, le: (T, T) -> bool): seq<T> {
    if s == [] then [] else InsertBy(s[0], SortBy(s[1..], le), le)
  }

  /** Sorting rearranges. */
  lemma {:induction false} SortElements<T>(s: seq<T>, le: (T, T) -> bool)
    ensures multiset(SortBy(s, le)) == multiset(s)
  {
    if s != [] {
      Cons(s);
      SortElements(s[1..], le);
      InsertElements(s[0], SortBy(s[1..], le), le);
    }
  }

  lemma SameElements<T>(a: seq<T>, b: seq<T>)
    requires multiset(a) == multiset(b)
    ensures |a| == |b|
    ensures forall x :: x in a <==> x in b
  {
    assert |multiset(a)| == |a| && |multiset(b)| == |b|;
    forall x ensures x in a <==> x in b {
      assert x in a <==> x in multiset(a);
      assert x in b <==> x in multiset(b);
    }
  }

  lemma {:induction false} InsertSorted<T(!new)>(x: T, s: seq<T>, le: (T, T) -> bool)
    requires Ranks(multiset{x} + multiset(s), le) && SortedBy(s, le)
    ensures SortedBy(InsertBy(x, s, le), le)
  {
    if s != [] {
      Cons(s);
      InsertElements(x, s[1..], le);
      var r := InsertBy(x, s, le);
      if le(x, s[0]) {
        assert r[1..] == s;
      } else {
        InsertSorted(x, s[1..], le);
        assert r[1..] == InsertBy(x, s[1..], le);
      }
    }
  }

  lemma {:induction false} SortBySorts<T(!new)>(s: seq<T>, le: (T, T) -> bool)
    requires Ranks(multiset(s), le)
    ensures SortedBy(SortBy(s, le), le)
  {
    if s != [] {
      Cons(s);
      SortBySorts(s[1..], le);
      SortElements(s[1..], le);
      InsertSorted(s[0], SortBy(s[1..], le), le);
    }
  }

  // ---- stability ---------------------------------------------------------

  /** The elements that qualify, in their order. */
  function Only<T>(s: seq<T>, keep: T -> bool): seq<T> {
    if s == [] then [] else if keep(s[0]) then [s[0]] + Only(s[1..], keep) else Only(s[1..], keep)
  }

  lemma {:induction false} OnlyCons<T>(x: T, s: seq<T>, keep: T -> bool)
    ensures Only([x] + s, keep) == if keep(x) then [x] + Only(s, keep) else Only(s, keep)
  {
    assert ([x] + s)[1..] == s;
  }

  lemma {:induction false} OnlyRest<T>(s: seq<T>, keep: T -> bool)
    requires s != []
    ensures Only(s, keep) == if keep(s[0]) then [s[0]] + Only(s[1..], keep) else Only(s[1..], keep)
  {
  }

  lemma {:induction false} InsertBehind<T(!new)>(x: T, s: seq<T>, le: (T, T) -> bool, keep: T -> bool)
    requires s != [] && !le(x, s[0]) && (keep(x) && keep(s[0]) ==> le(x, s[0]))
    requires Only(InsertBy(x, s[1..], le), keep) ==
      if keep(x) then [x] + Only(s[1..], keep) else Only(s[1..], keep)
    ensures Only(InsertBy(x, s, le), keep) == if keep(x) then [x] + Only(s, keep) else Only(s, keep)
  {
    OnlyCons(s[0], InsertBy(x, s[1..], le), keep);
    OnlyRest(s, keep);
  }

  lemma {:induction false} InsertIsStable<T(!new)>(x: T, s: seq<T>, le: (T, T) -> bool, keep: T -> bool)
    requires forall y :: keep(x) && keep(y) ==> le(x, y)
    ensures Only(InsertBy(x, s, le), keep) == if keep(x) then [x] + Only(s, keep) else Only(s, keep)
  {
    if s == [] {
      assert [x][1..] == [];
    } else if le(x, s[0]) {
      OnlyCons(x, s, keep);
    } else {
      InsertIsStable(x, s[1..], le, keep);
      InsertBehind(x, s, le, keep);
    }
  }

  /** Elements that tie with each other keep their order. */
  lemma {:induction false} SortIsStable<T(!new)>(s: seq<T>, le: (T, T) -> bool, keep: T -> bool)
    requires forall x, y :: keep(x) && keep(y) ==> le(x, y)
    ensures Only(SortBy(s, le), keep) == Only(s, keep)
  {
    if s != [] {
      SortIsStable(s[1..], le, keep);
      InsertIsStable(s[0], SortBy(s[1..], le), le, keep);
    }
  }

  /** In a sorted sequence earlier elements are below later ones. */
  lemma {:induction false} SortedIndex<T(!new)>(s: seq<T>, le: (T, T) -> bool, i: nat, j: nat)
    requires SortedBy(s, le) && i < j < |s|
    ensures le(s[i], s[j])
  {
    if i == 0 {
      assert s[1..][j - 1] == s[j];
      assert s[j] in multiset(s[1..]);
    } else {
      SortedIndex(s[1..], le, i - 1, j - 1);
    }
  }

  /** Two sorted arrangements of the same elements are the same sequence. */
  lemma {:induction false} SortedUnique<T(!new)>(a: seq<T>, b: seq<T>, le: (T, T) -> bool)
    requires multiset(a) == multiset(b)
    requires SortedBy(a, le) && SortedBy(b, le) && NoTies(multiset(a), le)
    ensures a == b
  {
    SameElements(a, b);
    if a != [] {
      Cons(a);
      Cons(b);
      assert a[0] in multiset(b) && b[0] in multiset(a);
      assert a[0] == b[0];
      assert multiset(a[1..]) == multiset(a) - multiset{a[0]};
      assert multiset(b[1..]) == multiset(b) - multiset{b[0]};
      SortedUnique(a[1..], b[1..], le);
    }
  }

  /** Sorting forgets the order its input came in. */
  lemma SortByForgetsOrder<T(!new)>(a: seq<T>, b: seq<T>, le: (T, T) -> bool)
    requires multiset(a) == multiset(b)
    requires Ranks(multiset(a), le) && NoTies(multiset(a), le)
    ensures SortBy(a, le) == SortBy(b, le)
  {
    SortBySorts(a, le);
    SortBySorts(b, le);
    SortElements(a, le);
    SortElements(b, le);
    SortedUnique(SortBy(a, le), SortBy(b, le), le);
  }

  // ---- sequences without repetition --------------------------------------

  ghost predicate NoRepeats<T(!new)>(s: seq<T>) {
    forall i, j :: 0 <= i < j < |s| ==> s[i] != s[j]
  }

  lemma {:induction false} CountAtMostOne<T(!new)>(s: seq<T>, x: T)
    requires NoRepeats(s)
    ensures multiset(s)[x] <= 1
  {
    if s != [] {
      Cons(s);
      CountAtMostOne(s[1..], x);
      if x in s[1..] {
        var k :| 0 <= k < |s[1..]| && s[1..][k] == x;
        assert s[k + 1] == x;
      }
    }
  }

  lemma CountTwice<T>(s: seq<T>, i: nat, j: nat)
    requires i < j < |s| && s[i] == s[j]
    ensures multiset(s)[s[i]] >= 2
  {
    assert s == s[..j] + s[j..];
    assert multiset(s) == multiset(s[..j]) + multiset(s[j..]);
    assert s[..j][i] == s[i] && s[j..][0] == s[j];
    assert s[i] in s[..j] && s[i] in s[j..];
  }

  lemma ReorderWithoutRepeats<T(!new)>(a: seq<T>, b: seq<T>)
    requires multiset(a) == multiset(b) && NoRepeats(a)
    ensures NoRepeats(b)
  {
    forall i, j | 0 <= i < j < |b| ensures b[i] != b[j] {
      if b[i] == b[j] {
        CountTwice(b, i, j);
        CountAtMostOne(a, b[i]);
      }
    }
  }

  lemma JoinWithoutRepeats<T(!new)>(a: seq<T>, b: seq<T>)
    requires NoRepeats(a) && NoRepeats(b)
    requires forall x :: x in a ==> x !in b
    ensures NoRepeats(a + b)
  {
    forall i, j | 0 <= i < j < |a + b| ensures (a + b)[i] != (a + b)[j] {
      if i < |a| <= j { assert (a + b)[i] in a && (a + b)[j] in b; }
    }
  }

  /** Without repetition on either side, equal membership is equal contents. */
  lemma {:induction false} SameMembers<T(!new)>(a: seq<T>, b: seq<T>)
    requires NoRepeats(a) && NoRepeats(b)
    requires forall x :: x in a <==> x in b
    ensures multiset(a) == multiset(b)
  {
    forall x ensures multiset(a)[x] == multiset(b)[x] {
      CountAtMostOne(a, x);
      CountAtMostOne(b, x);
      assert x in multiset(a) <==> x in a;
      assert x in multiset(b) <==> x in b;
    }
  }

  /** The converse of `SortedIndex`. */
  lemma {:induction false} SortedFromIndex<T(!new)>(s: seq<T>, le: (T, T) -> bool)
    requires forall i, j :: 0 <= i < j < |s| ==> le(s[i], s[j])
    ensures SortedBy(s, le)
  {
    if s != [] {
      forall y | y in multiset(s[1..]) ensures le(s[0], y) {
        var k :| 0 <= k < |s[1..]| && s[1..][k] == y;
        assert s[k + 1] == y;
      }
      assert forall i, j :: 0 <= i < j < |s[1..]| ==> s[1..][i] == s[i + 1] && s[1..][j] == s[j + 1];
      SortedFromIndex(s[1..], le);
    }
  }

  /** Two strictly arranged lists of the same elements are the same list. */
  lemma ArrangedUnique<T(!new)>(a: seq<T>, b: seq<T>, le: (T, T) -> bool)
    requires forall i, j :: 0 <= i < j < |a| ==> le(a[i], a[j])
    requires forall i, j :: 0 <= i < j < |b| ==> le(b[i], b[j])
    requires NoRepeats(a) && NoRepeats(b) && NoTies(multiset(a), le)
    requires forall x :: x in a <==> x in b
    ensures a == b
  {
    SortedFromIndex(a, le);
    SortedFromIndex(b, le);
    SameMembers(a, b);
    SortedUnique(a, b, le);
  }
}

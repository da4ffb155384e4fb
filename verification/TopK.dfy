/** Keeping the first `k` of a sorted merge: it may be done part by part. */
module TopK {
  import opened Sorting

  /** s[:k] */
  function Take<T>(s: seq<T>, k: nat): seq<T> {
    if k == 0 || s == [] then [] else [s[0]] + Take(s[1..], k - 1)
  }

  lemma {:induction false} TakeIsPrefix<T>(s: seq<T>, k: nat)
    ensures Take(s, k) == if |s| <= k then s else s[..k]
  {
    if k > 0 && s != [] { TakeIsPrefix(s[1..], k - 1); }
  }

  lemma {:induction false} TakeTake<T>(s: seq<T>, k: nat, l: nat)
    requires l <= k
    ensures Take(Take(s, k), l) == Take(s, l)
  {
    if l > 0 && s != [] {
      TakeTake(s[1..], k - 1, l - 1);
      TakeRest(s, k);
    }
  }

  lemma TakeRest<T>(s: seq<T>, k: nat)
    requires k > 0 && s != []
    ensures Take(s, k) != [] && Take(s, k)[0] == s[0] && Take(s, k)[1..] == Take(s[1..], k - 1)
  {
  }

  lemma TakeCons<T>(x: T, s: seq<T>, k: nat)
    requires k > 0
    ensures Take([x] + s, k) == [x] + Take(s, k - 1)
  {
    assert ([x] + s)[1..] == s;
  }

  /** The best `k` elements, in order. */
  function Best<T>(s: seq<T>, le: (T, T) -> bool, k: nat): seq<T> { Take(SortBy(s, le), k) }

  function InsertAll<T>(b: seq<T>, s: seq<T>, le: (T, T) -> bool): seq<T> {
    if b == [] then s else InsertBy(b[0], InsertAll(b[1..], s, le), le)
  }

  function Concat<T>(parts: seq<seq<T>>): seq<T> {
    if parts == [] then [] else parts[0] + Concat(parts[1..])
  }

  function BestOfEach<T>(parts: seq<seq<T>>, le: (T, T) -> bool, k: nat): (r: seq<seq<T>>)
    ensures |r| == |parts|
  {
    if parts == [] then [] else [Best(parts[0], le, k)] + BestOfEach(parts[1..], le, k)
  }

  lemma {:induction false} SortAppend<T>(b: seq<T>, a: seq<T>, le: (T, T) -> bool)
    ensures SortBy(b + a, le) == InsertAll(b, SortBy(a, le), le)
  {
    if b == [] {
      assert b + a == a;
    } else {
      assert (b + a)[1..] == b[1..] + a;
      SortAppend(b[1..], a, le);
    }
  }

  lemma InsertBefore<T>(x: T, s: seq<T>, le: (T, T) -> bool)
    requires s != []
    ensures InsertBy(x, s, le) == if le(x, s[0]) then [x] + s else [s[0]] + InsertBy(x, s[1..], le)
  {
  }

  lemma TakeInsertFront<T>(x: T, s: seq<T>, t: seq<T>, le: (T, T) -> bool, k: nat)
    requires s != [] && t != [] && s[0] == t[0] && le(x, s[0]) && k > 0
    requires Take(t, k - 1) == Take(s, k - 1)
    ensures Take(InsertBy(x, t, le), k) == Take(InsertBy(x, s, le), k)
  {
    InsertBefore(x, s, le);
    InsertBefore(x, t, le);
    TakeCons(x, s, k);
    TakeCons(x, t, k);
  }

  lemma TakeInsertBehind<T>(x: T, s: seq<T>, t: seq<T>, le: (T, T) -> bool, k: nat)
    requires s != [] && t != [] && s[0] == t[0] && !le(x, s[0]) && k > 0
    requires Take(InsertBy(x, t[1..], le), k - 1) == Take(InsertBy(x, s[1..], le), k - 1)
    ensures Take(InsertBy(x, t, le), k) == Take(InsertBy(x, s, le), k)
  {
    InsertBefore(x, s, le);
    InsertBefore(x, t, le);
    TakeCons(s[0], InsertBy(x, s[1..], le), k);
    TakeCons(s[0], InsertBy(x, t[1..], le), k);
  }

  /** Whatever is past the first `k` cannot enter the first `k` by an insertion. */
  lemma {:induction false} TakeInsert<T>(x: T, s: seq<T>, le: (T, T) -> bool, k: nat)
    ensures Take(InsertBy(x, Take(s, k), le), k) == Take(InsertBy(x, s, le), k)
  {
    if s == [] || k == 0 {
    } else {
      TakeRest(s, k);
      var t := Take(s, k);
      if le(x, s[0]) {
        TakeTake(s, k, k - 1);
        TakeInsertFront(x, s, t, le, k);
      } else {
        var rest := s[1..];
        TakeInsert(x, rest, le, k - 1);
        assert t[1..] == Take(rest, k - 1);
        TakeInsertBehind(x, s, t, le, k);
      }
    }
  }

  lemma {:induction false} TakeInsertAll<T>(b: seq<T>, s: seq<T>, le: (T, T) -> bool, k: nat)
    ensures Take(InsertAll(b, Take(s, k), le), k) == Take(InsertAll(b, s, le), k)
  {
    if b == [] {
      TakeTake(s, k, k);
    } else {
      TakeInsertAll(b[1..], s, le, k);
      TakeInsert(b[0], InsertAll(b[1..], s, le), le, k);
      TakeInsert(b[0], InsertAll(b[1..], Take(s, k), le), le, k);
    }
  }

  lemma TakeElements<T>(s: seq<T>, k: nat)
    ensures forall x :: x in Take(s, k) ==> x in s
  {
    TakeIsPrefix(s, k);
  }

  /** Adjacent elements are in order. */
  ghost predicate Chain<T>(s: seq<T>, le: (T, T) -> bool) {
    |s| > 1 ==> le(s[0], s[1]) && Chain(s[1..], le)
  }

  lemma {:induction false} SortedIsChain<T(!new)>(s: seq<T>, le: (T, T) -> bool)
    requires SortedBy(s, le)
    ensures Chain(s, le)
  {
    if |s| > 1 {
      assert s[1] in multiset(s[1..]);
      SortedIsChain(s[1..], le);
    }
  }

  lemma {:induction false} ChainTake<T>(s: seq<T>, le: (T, T) -> bool, k: nat)
    requires Chain(s, le)
    ensures Chain(Take(s, k), le)
  {
    if |s| > 1 && k > 1 {
      TakeRest(s, k);
      TakeRest(s[1..], k - 1);
      ChainTake(s[1..], le, k - 1);
    } else {
      TakeIsPrefix(s, k);
    }
  }

  lemma {:induction false} ChainIsFixed<T>(s: seq<T>, le: (T, T) -> bool)
    requires Chain(s, le)
    ensures SortBy(s, le) == s
  {
    if |s| > 0 {
      ChainIsFixed(s[1..], le);
    }
  }

  /** All the elements in play can be ordered without ties. */
  ghost predicate Orderable<T(!new)>(s: multiset<T>, le: (T, T) -> bool) { Ranks(s, le) && NoTies(s, le) }

  lemma Sub<T(!new)>(s: multiset<T>, t: multiset<T>, le: (T, T) -> bool)
    requires Orderable(t, le) && forall x :: x in s ==> x in t
    ensures Orderable(s, le)
  {
  }

  /** Cutting one part down to its best `k` first does not change the best `k` of the whole. */
  lemma BestOfAppend<T(!new)>(b: seq<T>, a: seq<T>, le: (T, T) -> bool, k: nat)
    requires Orderable(multiset(a), le)
    ensures Best(b + Best(a, le, k), le, k) == Best(b + a, le, k)
  {
    SortAppend(b, a, le);
    SortAppend(b, Best(a, le, k), le);
    BestIsSorted(a, le, k);
    TakeInsertAll(b, SortBy(a, le), le, k);
  }

  lemma BestIsSorted<T(!new)>(a: seq<T>, le: (T, T) -> bool, k: nat)
    requires Orderable(multiset(a), le)
    ensures SortBy(Best(a, le, k), le) == Best(a, le, k)
  {
    SortBySorts(a, le);
    SortedIsChain(SortBy(a, le), le);
    ChainTake(SortBy(a, le), le, k);
    ChainIsFixed(Best(a, le, k), le);
  }

  lemma BestSwap<T(!new)>(a: seq<T>, b: seq<T>, le: (T, T) -> bool, k: nat)
    requires Orderable(multiset(a + b), le)
    ensures Best(a + b, le, k) == Best(b + a, le, k)
  {
    SortByForgetsOrder(a + b, b + a, le);
  }

  lemma BestElements<T>(s: seq<T>, le: (T, T) -> bool, k: nat)
    ensures forall x :: x in Best(s, le, k) ==> x in s
  {
    SortElements(s, le);
    SameElements(SortBy(s, le), s);
    TakeElements(SortBy(s, le), k);
    forall x | x in Best(s, le, k) ensures x in s {
      assert x in Take(SortBy(s, le), k) && x in SortBy(s, le);
    }
  }

  lemma {:induction false} BestOfEachElements<T>(parts: seq<seq<T>>, le: (T, T) -> bool, k: nat)
    ensures forall x :: x in Concat(BestOfEach(parts, le, k)) ==> x in Concat(parts)
  {
    if parts != [] {
      BestElements(parts[0], le, k);
      BestOfEachElements(parts[1..], le, k);
    }
  }

  /** The limit can be pushed into each part: the best `k` of the parts' best `k` are the best `k`. */
  lemma {:induction false} LimitPushdown<T(!new)>(parts: seq<seq<T>>, le: (T, T) -> bool, k: nat)
    requires Orderable(multiset(Concat(parts)), le)
    ensures Best(Concat(BestOfEach(parts, le, k)), le, k) == Best(Concat(parts), le, k)
  {
    if parts != [] {
      var p, rest := parts[0], Concat(parts[1..]);
      var cut, rest' := Best(p, le, k), Concat(BestOfEach(parts[1..], le, k));
      var all := multiset(Concat(parts));
      Sub(multiset(rest), all, le);
      Sub(multiset(p), all, le);
      LimitPushdown(parts[1..], le, k);
      BestOfEachElements(parts[1..], le, k);
      BestElements(p, le, k);
      WithinWhole(p, rest, cut, rest', le);
      BestOfAppend(p, rest, le, k);
      BestOfAppend(p, rest', le, k);
      BestSwap(p, rest', le, k);
      BestOfAppend(rest', p, le, k);
      BestSwap(rest', cut, le, k);
    }
  }

  lemma WithinWhole<T(!new)>(p: seq<T>, rest: seq<T>, cut: seq<T>, rest': seq<T>, le: (T, T) -> bool)
    requires Orderable(multiset(p + rest), le)
    requires forall x :: x in cut ==> x in p
    requires forall x :: x in rest' ==> x in rest
    ensures Orderable(multiset(rest'), le)
    ensures Orderable(multiset(p + rest'), le) && Orderable(multiset(rest' + cut), le)
  {
    var whole := multiset(p + rest);
    assert forall x :: x in p + rest ==> x in whole;
    Sub(multiset(rest'), whole, le);
    Sub(multiset(p + rest'), whole, le);
    Sub(multiset(rest' + cut), whole, le);
  }
}

/** A sequence that holds exactly the elements of another that qualify, in their order. */
module Picking {

  ghost predicate Ascending(at: seq<nat>) { forall i, j :: 0 <= i < j < |at| ==> at[i] < at[j] }

  ghost predicate Lists<T>(all: seq<T>, some: seq<T>, at: seq<nat>) {
    |at| == |some| && forall i :: 0 <= i < |at| ==> at[i] < |all| && some[i] == all[at[i]]
  }

  ghost predicate Covers<T>(all: seq<T>, at: seq<nat>, keep: T -> bool) {
    forall k: nat :: k < |all| ==> (k in at <==> keep(all[k]))
  }

  ghost predicate PickedAt<T>(all: seq<T>, some: seq<T>, at: seq<nat>, keep: T -> bool) {
    Ascending(at) && Lists(all, some, at) && Covers(all, at, keep)
  }

  ghost predicate Picked<T>(all: seq<T>, some: seq<T>, keep: T -> bool) {
    exists at :: PickedAt(all, some, at, keep)
  }

  lemma {:induction false} PickedNone<T>(keep: T -> bool)
    ensures Picked<T>([], [], keep)
  {
    assert PickedAt<T>([], [], [], keep);
  }

  lemma {:induction false} SnocKept<T>(all: seq<T>, some: seq<T>, at: seq<nat>, keep: T -> bool, last: T)
    requires PickedAt(all, some, at, keep) && keep(last)
    ensures PickedAt(all + [last], some + [last], at + [|all|], keep)
  {
    var more, longer := at + [|all|], all + [last];
    assert forall k: nat :: k in at ==> k < |all|;
    forall k: nat | k < |longer| ensures k in more <==> keep(longer[k]) {
      if k < |all| { assert longer[k] == all[k]; }
    }
  }

  lemma {:induction false} SnocDropped<T>(all: seq<T>, some: seq<T>, at: seq<nat>, keep: T -> bool, last: T)
    requires PickedAt(all, some, at, keep) && !keep(last)
    ensures PickedAt(all + [last], some, at, keep)
  {
    var longer := all + [last];
    assert forall k: nat :: k in at ==> k < |all|;
    forall k: nat | k < |longer| ensures k in at <==> keep(longer[k]) {
      if k < |all| { assert longer[k] == all[k]; }
    }
  }

  lemma {:induction false} PickedSnoc<T>(all: seq<T>, some: seq<T>, keep: T -> bool, last: T)
    requires Picked(all, some, keep)
    ensures Picked(all + [last], if keep(last) then some + [last] else some, keep)
  {
    var at :| PickedAt(all, some, at, keep);
    if keep(last) { SnocKept(all, some, at, keep, last); } else { SnocDropped(all, some, at, keep, last); }
  }

  function Shifted(at: seq<nat>): (r: seq<nat>)
    ensures |r| == |at| && forall i :: 0 <= i < |at| ==> r[i] == at[i] + 1
  {
    seq(|at|, i requires 0 <= i < |at| => at[i] + 1)
  }

  lemma {:induction false} ShiftedHolds(at: seq<nat>, k: nat)
    ensures k in Shifted(at) <==> k > 0 && k - 1 in at
  {
    if k > 0 && k - 1 in at {
      var i :| 0 <= i < |at| && at[i] == k - 1;
      assert Shifted(at)[i] == k;
    }
  }

  lemma {:induction false} CoversCons<T>(first: T, all: seq<T>, at: seq<nat>, keep: T -> bool)
    requires Covers(all, at, keep)
    ensures Covers([first] + all, if keep(first) then [0] + Shifted(at) else Shifted(at), keep)
  {
    var more: seq<nat> := if keep(first) then [0] + Shifted(at) else Shifted(at);
    forall k: nat | k < |all| + 1 ensures k in more <==> keep(([first] + all)[k]) {
      ShiftedHolds(at, k);
      if k > 0 { assert ([first] + all)[k] == all[k - 1]; }
    }
  }

  lemma {:induction false} ConsKept<T>(first: T, all: seq<T>, some: seq<T>, at: seq<nat>, keep: T -> bool)
    requires PickedAt(all, some, at, keep) && keep(first)
    ensures PickedAt([first] + all, [first] + some, [0] + Shifted(at), keep)
  {
    CoversCons(first, all, at, keep);
    ListsCons(first, all, some, at);
    AscendsCons(at);
  }

  lemma {:induction false} AscendsCons(at: seq<nat>)
    requires Ascending(at)
    ensures Ascending([0] + Shifted(at))
  {
  }

  lemma {:induction false} ListsCons<T>(first: T, all: seq<T>, some: seq<T>, at: seq<nat>)
    requires Lists(all, some, at)
    ensures Lists([first] + all, [first] + some, [0] + Shifted(at))
  {
    var longer, listed, more := [first] + all, [first] + some, [0] + Shifted(at);
    forall i | 0 <= i < |more| ensures more[i] < |longer| && listed[i] == longer[more[i]] {
      if i > 0 {
        assert more[i] == at[i - 1] + 1 && listed[i] == some[i - 1] && longer[at[i - 1] + 1] == all[at[i - 1]];
      }
    }
  }

  lemma {:induction false} ConsDropped<T>(first: T, all: seq<T>, some: seq<T>, at: seq<nat>, keep: T -> bool)
    requires PickedAt(all, some, at, keep) && !keep(first)
    ensures PickedAt([first] + all, some, Shifted(at), keep)
  {
    CoversCons(first, all, at, keep);
  }

  lemma {:induction false} PickedCons<T>(first: T, all: seq<T>, some: seq<T>, keep: T -> bool)
    requires Picked(all, some, keep)
    ensures Picked([first] + all, if keep(first) then [first] + some else some, keep)
  {
    var at :| PickedAt(all, some, at, keep);
    if keep(first) { ConsKept(first, all, some, at, keep); } else { ConsDropped(first, all, some, at, keep); }
  }

  // ---- counting ----------------------------------------------------------

  /** The positions of the elements that qualify. */
  function At<T>(s: seq<T>, keep: T -> bool): set<nat> { set i: nat | i < |s| && keep(s[i]) }

  lemma {:induction false} AtNone<T>(keep: T -> bool)
    ensures |At<T>([], keep)| == 0
  {
    assert At<T>([], keep) == {};
  }

  lemma {:induction false} AtSnoc<T>(s: seq<T>, keep: T -> bool, last: T, all: seq<T>)
    requires all == s + [last]
    ensures |At(all, keep)| == |At(s, keep)| + if keep(last) then 1 else 0
  {
    assert forall i: nat :: i < |s| ==> all[i] == s[i];
    if keep(last) {
      assert At(all, keep) == At(s, keep) + {|s|};
    } else {
      assert At(all, keep) == At(s, keep);
    }
  }
}

/** The undirected graph of alias edges, its components, and the worklist that finds them. */
module AliasGraph {
  import opened Tables

  predicate Joins(r: AliasRow, a: nat, b: nat) {
    (r.oldId == a && r.newId == b) || (r.oldId == b && r.newId == a)
  }

  ghost predicate Edge(aliases: seq<AliasRow>, a: nat, b: nat) {
    exists r :: r in aliases && Joins(r, a, b)
  }

  ghost predicate Walk(aliases: seq<AliasRow>, p: seq<nat>) {
    && p != []
    && (|p| > 1 ==> Edge(aliases, p[0], p[1]) && Walk(aliases, p[1..]))
  }

  ghost predicate WalkBetween(aliases: seq<AliasRow>, p: seq<nat>, a: nat, b: nat) {
    Walk(aliases, p) && p[0] == a && p[|p| - 1] == b
  }

  /** The two identities are the same logical test. */
  ghost predicate Connected(aliases: seq<AliasRow>, a: nat, b: nat) {
    exists p :: WalkBetween(aliases, p, a, b)
  }

  // ---- connectedness is an equivalence -----------------------------------

  lemma ConnectedSelf(aliases: seq<AliasRow>, a: nat)
    ensures Connected(aliases, a, a)
  {
    assert WalkBetween(aliases, [a], a, a);
  }

  lemma {:induction false} WalkSnoc(aliases: seq<AliasRow>, p: seq<nat>, c: nat)
    requires Walk(aliases, p) && Edge(aliases, p[|p| - 1], c)
    ensures Walk(aliases, p + [c])
  {
    if |p| > 1 {
      assert (p + [c])[1..] == p[1..] + [c];
      WalkSnoc(aliases, p[1..], c);
    } else {
      assert (p + [c])[1..] == [c];
    }
  }

  lemma ConnectedStep(aliases: seq<AliasRow>, a: nat, b: nat, c: nat)
    requires Connected(aliases, a, b) && Edge(aliases, b, c)
    ensures Connected(aliases, a, c)
  {
    var p :| WalkBetween(aliases, p, a, b);
    WalkSnoc(aliases, p, c);
    assert WalkBetween(aliases, p + [c], a, c);
  }

  lemma {:induction false} WalkExtends(aliases: seq<AliasRow>, a: nat, b: nat, p: seq<nat>, c: nat)
    requires Connected(aliases, a, b) && WalkBetween(aliases, p, b, c)
    ensures Connected(aliases, a, c)
    decreases |p|
  {
    if |p| > 1 {
      ConnectedStep(aliases, a, b, p[1]);
      WalkExtends(aliases, a, p[1], p[1..], c);
    }
  }

  lemma ConnectedTransitive(aliases: seq<AliasRow>, a: nat, b: nat, c: nat)
    requires Connected(aliases, a, b) && Connected(aliases, b, c)
    ensures Connected(aliases, a, c)
  {
    var p :| WalkBetween(aliases, p, b, c);
    WalkExtends(aliases, a, b, p, c);
  }

  lemma {:induction false} WalkBack(aliases: seq<AliasRow>, p: seq<nat>, a: nat, b: nat)
    requires WalkBetween(aliases, p, a, b)
    ensures Connected(aliases, b, a)
    decreases |p|
  {
    if |p| == 1 {
      ConnectedSelf(aliases, a);
    } else {
      WalkBack(aliases, p[1..], p[1], b);
      var r :| r in aliases && Joins(r, p[0], p[1]);
      assert Joins(r, p[1], p[0]);
      ConnectedStep(aliases, b, p[1], a);
    }
  }

  lemma ConnectedSymmetric(aliases: seq<AliasRow>, a: nat, b: nat)
    requires Connected(aliases, a, b)
    ensures Connected(aliases, b, a)
  {
    var p :| WalkBetween(aliases, p, a, b);
    WalkBack(aliases, p, a, b);
  }

  /** Two groups are equal or disjoint: from every member the group is the same. */
  lemma GroupsPartition(aliases: seq<AliasRow>, a: nat, b: nat, x: nat)
    requires Connected(aliases, a, x) && Connected(aliases, b, x)
    ensures forall y :: Connected(aliases, a, y) <==> Connected(aliases, b, y)
  {
    ConnectedSymmetric(aliases, b, x);
    ConnectedSymmetric(aliases, a, x);
    ConnectedTransitive(aliases, a, x, b);
    ConnectedTransitive(aliases, b, x, a);
    forall y ensures Connected(aliases, a, y) <==> Connected(aliases, b, y) {
      if Connected(aliases, a, y) { ConnectedTransitive(aliases, b, a, y); }
      if Connected(aliases, b, y) { ConnectedTransitive(aliases, a, b, y); }
    }
  }

  ghost predicate Closed(aliases: seq<AliasRow>, s: set<nat>) {
    forall r :: r in aliases && (r.oldId in s || r.newId in s) ==> r.oldId in s && r.newId in s
  }

  /** A set that contains `a` and is closed under edges contains everything connected to `a`. */
  lemma {:induction false} ClosedContains(aliases: seq<AliasRow>, s: set<nat>, p: seq<nat>, a: nat, b: nat)
    requires WalkBetween(aliases, p, a, b) && a in s && Closed(aliases, s)
    ensures b in s
    decreases |p|
  {
    if |p| > 1 {
      var r :| r in aliases && Joins(r, p[0], p[1]);
      ClosedContains(aliases, s, p[1..], p[1], b);
    }
  }

  lemma {:induction false} WalkGrows(before: seq<AliasRow>, after: seq<AliasRow>, p: seq<nat>)
    requires Grows(before, after) && Walk(before, p)
    ensures Walk(after, p)
  {
    if |p| > 1 {
      WalkGrows(before, after, p[1..]);
      var r :| r in before && Joins(r, p[0], p[1]);
      var k :| 0 <= k < |before| && before[k] == r;
      assert AtLeast(before[k], after[k]);
      assert after[k] in after && Joins(after[k], p[0], p[1]);
    }
  }

  /** Strengthening and adding edges only ever enlarges groups. */
  lemma GroupsGrow(before: seq<AliasRow>, after: seq<AliasRow>, a: nat, b: nat)
    requires Grows(before, after) && Connected(before, a, b)
    ensures Connected(after, a, b)
  {
    var p :| WalkBetween(before, p, a, b);
    WalkGrows(before, after, p);
    assert WalkBetween(after, p, a, b);
  }

  // ---- sorted(seen) ------------------------------------------------------

  ghost predicate IsLeast(s: set<nat>, m: nat) {
    m in s && forall y :: y in s ==> m <= y
  }

  lemma {:induction false} LeastExists(s: set<nat>)
    requires s != {}
    ensures exists m :: IsLeast(s, m)
    decreases |s|
  {
    var x :| x in s;
    var rest := s - {x};
    if rest == {} {
      assert forall y :: y in s ==> y !in rest ==> y == x;
      assert IsLeast(s, x);
    } else {
      LeastExists(rest);
      var m :| IsLeast(rest, m);
      assert forall y :: y in s ==> y == x || y in rest;
      assert IsLeast(s, if m < x then m else x);
    }
  }

  ghost predicate StrictlyAscending(ids: seq<nat>) {
    forall i, j :: 0 <= i < j < |ids| ==> ids[i] < ids[j]
  }

  function Least(s: set<nat>): (m: nat)
    requires s != {}
    ensures IsLeast(s, m)
  {
    LeastExists(s);
    var m :| m in s && forall y :: y in s ==> m <= y;
    m
  }

  function SortedSet(s: set<nat>): (ids: seq<nat>)
    decreases |s|
  {
    if s == {} then [] else [Least(s)] + SortedSet(s - {Least(s)})
  }

  lemma {:induction false} SortedSetElements(s: set<nat>)
    ensures StrictlyAscending(SortedSet(s))
    ensures forall x :: x in SortedSet(s) <==> x in s
    decreases |s|
  {
    if s != {} {
      var rest := s - {Least(s)};
      SortedSetElements(rest);
      var ids := SortedSet(rest);
      assert forall i :: 0 <= i < |ids| ==> ids[i] in rest;
    }
  }

  // ---- the worklist ------------------------------------------------------

  /** The rows the query for one identity returns. */
  function RowsTouching(aliases: seq<AliasRow>, id: nat): (rows: seq<AliasRow>)
    ensures forall r :: r in rows <==> r in aliases && (r.oldId == id || r.newId == id)
  {
    if aliases == [] then []
    else
      var rest := RowsTouching(aliases[1..], id);
      if aliases[0].oldId == id || aliases[0].newId == id then [aliases[0]] + rest else rest
  }

  ghost predicate TouchesAny(r: AliasRow, s: set<nat>) { r.oldId in s || r.newId in s }

  /** Rows touching a processed identity have both ends seen. */
  ghost predicate Explored(aliases: seq<AliasRow>, done: set<nat>, seen: set<nat>) {
    forall r :: r in aliases && TouchesAny(r, done) ==> r.oldId in seen && r.newId in seen
  }

  ghost predicate SomeUncertain(rows: seq<AliasRow>, s: set<nat>) {
    exists r :: r in rows && TouchesAny(r, s) && !r.certain
  }

  ghost function Universe(aliases: seq<AliasRow>, id: nat): set<nat> {
    {id} + (set r | r in aliases :: r.oldId) + (set r | r in aliases :: r.newId)
  }

  method Discover(neighbour: nat, seen: set<nat>, frontier: seq<nat>) returns (seen': set<nat>, frontier': seq<nat>)
    ensures seen' == seen + {neighbour}
    ensures frontier' == if neighbour in seen then frontier else frontier + [neighbour]
  {
    seen', frontier' := seen, frontier;
    if neighbour !in seen {
      seen' := seen' + {neighbour};
      frontier' := frontier' + [neighbour];
    }
  }

  /** Seen identities are exactly the processed ones and those still on the frontier. */
  ghost predicate Split(seen: set<nat>, done: set<nat>, frontier: seq<nat>) {
    && done <= seen
    && (forall x :: x in frontier ==> x in seen)
    && (forall x :: x in seen ==> x in done || x in frontier)
  }

  function EndsOf(rows: seq<AliasRow>): set<nat> {
    (set r | r in rows :: r.oldId) + (set r | r in rows :: r.newId)
  }

  lemma EndsSnoc(rows: seq<AliasRow>, k: nat)
    requires k < |rows|
    ensures EndsOf(rows[..k + 1]) == EndsOf(rows[..k]) + {rows[k].oldId} + {rows[k].newId}
  {
    assert rows[..k + 1] == rows[..k] + [rows[k]];
  }

  ghost predicate AnyDoubtful(rows: seq<AliasRow>) { exists r :: r in rows && !r.certain }

  lemma DoubtfulSnoc(rows: seq<AliasRow>, k: nat)
    requires k < |rows|
    ensures AnyDoubtful(rows[..k + 1]) <==> AnyDoubtful(rows[..k]) || !rows[k].certain
  {
    assert rows[..k + 1] == rows[..k] + [rows[k]];
    if !rows[k].certain { assert rows[k] in rows[..k + 1]; }
  }

  method Expand(rows: seq<AliasRow>, seen: set<nat>, frontier: seq<nat>, ghost done: set<nat>)
    returns (seen': set<nat>, frontier': seq<nat>, doubtful: bool)
    requires Split(seen, done, frontier)
    ensures Split(seen', done, frontier')
    ensures seen' == seen + EndsOf(rows)
    ensures doubtful <==> AnyDoubtful(rows)
    ensures seen' == seen ==> frontier' == frontier
  {
    seen', frontier', doubtful := seen, frontier, false;
    for k := 0 to |rows|
      invariant Split(seen', done, frontier')
      invariant seen' == seen + EndsOf(rows[..k])
      invariant doubtful <==> AnyDoubtful(rows[..k])
      invariant seen' == seen ==> frontier' == frontier
    {
      EndsSnoc(rows, k);
      DoubtfulSnoc(rows, k);
      if !rows[k].certain {
        doubtful := true;
      }
      seen', frontier' := Discover(rows[k].oldId, seen', frontier');
      seen', frontier' := Discover(rows[k].newId, seen', frontier');
    }
    assert rows[..|rows|] == rows;
  }

  /** The worklist's invariant, started from `id`. */
  ghost predicate Searching(aliases: seq<AliasRow>, id: nat, seen: set<nat>, done: set<nat>, frontier: seq<nat>,
                            uncertain: bool) {
    && id in seen
    && Split(seen, done, frontier)
    && seen <= Universe(aliases, id)
    && (forall x :: x in seen ==> Connected(aliases, id, x))
    && Explored(aliases, done, seen)
    && (uncertain <==> SomeUncertain(aliases, done))
  }

  lemma SearchStep(aliases: seq<AliasRow>, id: nat, seen: set<nat>, done: set<nat>, frontier: seq<nat>, uncertain: bool,
                   rows: seq<AliasRow>, seen': set<nat>, frontier': seq<nat>, doubtful: bool)
    requires frontier != [] && Searching(aliases, id, seen, done, frontier, uncertain)
    requires rows == RowsTouching(aliases, frontier[|frontier| - 1])
    requires seen' == seen + EndsOf(rows)
    requires doubtful <==> AnyDoubtful(rows)
    requires Split(seen', done + {frontier[|frontier| - 1]}, frontier')
    ensures Searching(aliases, id, seen', done + {frontier[|frontier| - 1]}, frontier', uncertain || doubtful)
  {
    var current := frontier[|frontier| - 1];
    assert current in frontier;
    var done' := done + {current};
    forall x | x in seen' ensures Connected(aliases, id, x) {
      if x !in seen {
        var r :| r in rows && (r.oldId == x || r.newId == x);
        var other := if r.oldId == x then r.newId else r.oldId;
        assert other == current;
        assert Joins(r, current, x);
        ConnectedStep(aliases, id, current, x);
      }
    }
    assert (uncertain || doubtful) <==> SomeUncertain(aliases, done') by {
      UncertainSplits(aliases, done, current, rows);
    }
  }

  lemma UncertainSplits(aliases: seq<AliasRow>, done: set<nat>, current: nat, rows: seq<AliasRow>)
    requires rows == RowsTouching(aliases, current)
    ensures SomeUncertain(aliases, done + {current}) <==>
            SomeUncertain(aliases, done) || exists r :: r in rows && !r.certain
  {
    if r :| r in aliases && TouchesAny(r, done) && !r.certain { assert TouchesAny(r, done + {current}); }
    if r :| r in rows && !r.certain { assert TouchesAny(r, done + {current}); }
    if r :| r in aliases && TouchesAny(r, done + {current}) && !r.certain {
      assert TouchesAny(r, done) || r in rows;
    }
  }

  /** `ids` lists the connected component of `id`, and `uncertain` whether it has a doubtful edge. */
  ghost predicate IsGroup(aliases: seq<AliasRow>, id: nat, ids: seq<nat>, uncertain: bool) {
    && StrictlyAscending(ids)
    && (forall x :: x in ids <==> Connected(aliases, id, x))
    && (uncertain <==> exists r :: r in aliases && Connected(aliases, id, r.oldId) && !r.certain)
  }

  lemma SearchEnd(aliases: seq<AliasRow>, id: nat, seen: set<nat>, done: set<nat>, uncertain: bool)
    requires Searching(aliases, id, seen, done, [], uncertain)
    ensures IsGroup(aliases, id, SortedSet(seen), uncertain)
  {
    SortedSetElements(seen);
    assert done == seen;
    assert Closed(aliases, seen);
    forall x | Connected(aliases, id, x) ensures x in seen {
      var p :| WalkBetween(aliases, p, id, x);
      ClosedContains(aliases, seen, p, id, x);
    }
    if uncertain {
      var r :| r in aliases && TouchesAny(r, done) && !r.certain;
      assert r.oldId in seen;
    }
    if r :| r in aliases && Connected(aliases, id, r.oldId) && !r.certain {
      assert TouchesAny(r, done);
    }
  }
}

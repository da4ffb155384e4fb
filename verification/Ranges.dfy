/** Line ranges in ingest/diff.py: building them from lines, merging them, and the canonical form
    that makes the merged list unique. */
module Ranges {
  import opened Models
  import opened Sorting

  ghost predicate Proper(ranges: seq<LineRange>) {
    forall r :: r in ranges ==> r.start <= r.end
  }

  predicate Holds(r: LineRange, line: nat) { r.start <= line <= r.end }

  ghost predicate Covers(ranges: seq<LineRange>, line: nat) {
    exists r :: r in ranges && Holds(r, line)
  }

  /** Sorted, disjoint and non-adjacent. */
  ghost predicate Canonical(ranges: seq<LineRange>) {
    && Proper(ranges)
    && forall i, j :: 0 <= i < j < |ranges| ==> ranges[i].end + 1 < ranges[j].start
  }

  ghost predicate SameCover(a: seq<LineRange>, b: seq<LineRange>) {
    forall line: nat :: Covers(a, line) <==> Covers(b, line)
  }

  // ---- uniqueness --------------------------------------------------------

  lemma CoversHead(a: seq<LineRange>, line: nat)
    requires a != []
    ensures Covers(a, line) <==> Holds(a[0], line) || Covers(a[1..], line)
  {
    assert a == [a[0]] + a[1..];
  }

  lemma CanonicalHead(a: seq<LineRange>)
    requires Canonical(a) && a != []
    ensures Canonical(a[1..])
    ensures Covers(a, a[0].start) && !Covers(a, a[0].end + 1)
    ensures forall line: nat :: Covers(a, line) ==> a[0].start <= line
    ensures forall line: nat :: Covers(a[1..], line) <==> Covers(a, line) && line > a[0].end
  {
    assert a[0] in a;
    assert Holds(a[0], a[0].start);
    forall r | r in a[1..] ensures a[0].end + 1 < r.start {
      var k :| 0 <= k < |a[1..]| && a[1..][k] == r;
      assert a[k + 1] == r;
    }
    forall line: nat ensures Covers(a, line) <==> Holds(a[0], line) || Covers(a[1..], line) {
      CoversHead(a, line);
    }
  }

  /** A canonical list is determined by the lines it covers. */
  lemma {:induction false} CanonicalUnique(a: seq<LineRange>, b: seq<LineRange>)
    requires Canonical(a) && Canonical(b) && SameCover(a, b)
    ensures a == b
  {
    if a == [] {
      if b != [] { CanonicalHead(b); }
    } else {
      CanonicalHead(a);
      assert b != [] by { assert Covers(b, a[0].start); }
      CanonicalHead(b);
      SameFirst(a, b);
      CanonicalUnique(a[1..], b[1..]);
      assert a == [a[0]] + a[1..] && b == [b[0]] + b[1..];
    }
  }

  lemma HoldsCovers(b: seq<LineRange>, line: nat)
    requires b != [] && Holds(b[0], line)
    ensures Covers(b, line)
  {
    assert b[0] in b;
  }

  lemma NotHeld(b: seq<LineRange>, line: nat)
    requires b != [] && !Covers(b, line)
    ensures !Holds(b[0], line)
  {
    if Holds(b[0], line) { HoldsCovers(b, line); }
  }

  lemma FirstIsNoLonger(a: seq<LineRange>, b: seq<LineRange>)
    requires a != [] && b != [] && Canonical(a) && Canonical(b) && SameCover(a, b)
    ensures a[0].start <= b[0].start
    ensures a[0].start == b[0].start ==> b[0].end <= a[0].end
  {
    CanonicalHead(a);
    CanonicalHead(b);
    assert Covers(a, b[0].start);
    NotHeld(b, a[0].end + 1);
    assert b[0] in b;
    assert a[0] in a;
  }

  lemma SameFirst(a: seq<LineRange>, b: seq<LineRange>)
    requires a != [] && b != [] && Canonical(a) && Canonical(b) && SameCover(a, b)
    ensures a[0] == b[0]
  {
    FirstIsNoLonger(a, b);
    FirstIsNoLonger(b, a);
  }

  // ---- merging -----------------------------------------------------------

  predicate StartsBefore(a: LineRange, b: LineRange) {
    a.start < b.start || (a.start == b.start && a.end <= b.end)
  }

  lemma CoversSnoc(a: seq<LineRange>, r: LineRange, line: nat)
    ensures Covers(a + [r], line) <==> Covers(a, line) || Holds(r, line)
  {
    assert r in a + [r];
    if Covers(a, line) {
      var q :| q in a && Holds(q, line);
      assert q in a + [r];
    }
  }

  /** One step of the merge: extend the last range or start a new one. */
  function Absorbing(merged: seq<LineRange>, r: LineRange): (next: seq<LineRange>)
    ensures next != []
  {
    if merged != [] && r.start <= merged[|merged| - 1].end + 1 then
      var last := merged[|merged| - 1];
      merged[..|merged| - 1] + [LineRange(last.start, if r.end < last.end then last.end else r.end)]
    else merged + [r]
  }

  ghost predicate Follows(merged: seq<LineRange>, r: LineRange) {
    merged != [] ==> merged[|merged| - 1].start <= r.start
  }

  lemma AbsorbingCovers(merged: seq<LineRange>, r: LineRange, line: nat)
    requires r.start <= r.end && Proper(merged) && Follows(merged, r)
    ensures Covers(Absorbing(merged, r), line) <==> Covers(merged, line) || Holds(r, line)
  {
    var next := Absorbing(merged, r);
    if merged != [] && r.start <= merged[|merged| - 1].end + 1 {
      var last := merged[|merged| - 1];
      assert last in merged && merged == merged[..|merged| - 1] + [last];
      CoversSnoc(merged[..|merged| - 1], last, line);
      CoversSnoc(merged[..|merged| - 1], next[|next| - 1], line);
    } else {
      CoversSnoc(merged, r, line);
    }
  }

  lemma AbsorbingCanonical(merged: seq<LineRange>, r: LineRange)
    requires Canonical(merged) && r.start <= r.end && Follows(merged, r)
    ensures Canonical(Absorbing(merged, r))
  {
    var next := Absorbing(merged, r);
    if merged != [] {
      var last := merged[|merged| - 1];
      assert last in merged;
      forall i | 0 <= i < |merged| - 1 ensures merged[i].end + 1 < last.start {
      }
    }
    forall q | q in next ensures q.start <= q.end {
      assert q in merged || q == next[|next| - 1];
    }
  }

  ghost predicate IsMerged(ranges: seq<LineRange>, merged: seq<LineRange>) {
    Canonical(merged) && SameCover(merged, ranges)
  }

  lemma MergeStep(seen: seq<LineRange>, merged: seq<LineRange>, r: LineRange)
    requires IsMerged(seen, merged) && r.start <= r.end && Follows(merged, r)
    ensures IsMerged(seen + [r], Absorbing(merged, r))
  {
    AbsorbingCanonical(merged, r);
    forall line: nat ensures Covers(Absorbing(merged, r), line) <==> Covers(seen + [r], line) {
      AbsorbingCovers(merged, r, line);
      CoversSnoc(seen, r, line);
    }
  }

  lemma AbsorbingFollows(merged: seq<LineRange>, r: LineRange, next: LineRange)
    requires Follows(merged, r) && r.start <= next.start
    ensures Follows(Absorbing(merged, r), next)
  {
  }

  /** sorted(ranges, key=(start, end)) */
  function Sorted(ranges: seq<LineRange>): seq<LineRange> { SortBy(ranges, StartsBefore) }

  lemma SortedFacts(ranges: seq<LineRange>)
    requires Proper(ranges)
    ensures Proper(Sorted(ranges)) && SameCover(Sorted(ranges), ranges)
    ensures forall i, j :: 0 <= i < j < |Sorted(ranges)| ==> Sorted(ranges)[i].start <= Sorted(ranges)[j].start
  {
    var sorted := Sorted(ranges);
    SortElements(ranges, StartsBefore);
    SameElements(sorted, ranges);
    SortBySorts(ranges, StartsBefore);
    forall i, j | 0 <= i < j < |sorted| ensures sorted[i].start <= sorted[j].start {
      SortedIndex(sorted, StartsBefore, i, j);
    }
  }

  method MergeRanges(ranges: seq<LineRange>) returns (merged: seq<LineRange>)
    requires Proper(ranges)
    ensures IsMerged(ranges, merged)
  {
    var sorted := Sorted(ranges);
    SortedFacts(ranges);
    merged := [];
    for k := 0 to |sorted|
      invariant IsMerged(sorted[..k], merged)
      invariant k < |sorted| ==> Follows(merged, sorted[k])
    {
      var current := sorted[k];
      assert sorted[..k + 1] == sorted[..k] + [current];
      MergeStep(sorted[..k], merged, current);
      if k + 1 < |sorted| { AbsorbingFollows(merged, current, sorted[k + 1]); }
      if merged != [] && current.start <= merged[|merged| - 1].end + 1 {
        var last := merged[|merged| - 1];
        merged := merged[..|merged| - 1] +
          [LineRange(last.start, if current.end < last.end then last.end else current.end)];
      } else {
        merged := merged + [current];
      }
    }
    assert sorted[..|sorted|] == sorted;
  }

  /** Merging depends only on the covered lines, so it is idempotent and ignores order. */
  lemma MergingForgets(a: seq<LineRange>, b: seq<LineRange>, merged: seq<LineRange>, merged': seq<LineRange>)
    requires IsMerged(a, merged) && IsMerged(b, merged') && SameCover(a, b)
    ensures merged == merged'
    ensures IsMerged(merged, merged)
  {
    CanonicalUnique(merged, merged');
  }

  // ---- ranges from lines -------------------------------------------------

  predicate AtMost(a: nat, b: nat) { a <= b }

  ghost predicate Spells(ranges: seq<LineRange>, lines: seq<nat>) {
    Proper(ranges) && forall line: nat :: Covers(ranges, line) <==> line in lines
  }

  lemma ExtendStep(ranges: seq<LineRange>, lines: seq<nat>, line: nat, next: seq<LineRange>)
    requires Spells(ranges, lines)
    requires next == if ranges != [] && line == ranges[|ranges| - 1].end + 1
      then ranges[..|ranges| - 1] + [LineRange(ranges[|ranges| - 1].start, line)]
      else ranges + [LineRange(line, line)]
    ensures Spells(next, lines + [line])
  {
    if ranges != [] && line == ranges[|ranges| - 1].end + 1 {
      var last := ranges[|ranges| - 1];
      assert last in ranges && ranges == ranges[..|ranges| - 1] + [last];
      forall l: nat ensures Covers(next, l) <==> l in lines + [line] {
        CoversSnoc(ranges[..|ranges| - 1], last, l);
        CoversSnoc(ranges[..|ranges| - 1], LineRange(last.start, line), l);
      }
    } else {
      forall l: nat ensures Covers(next, l) <==> l in lines + [line] {
        CoversSnoc(ranges, LineRange(line, line), l);
      }
    }
  }

  method RangesFromLines(lines: seq<nat>) returns (ranges: seq<LineRange>)
    ensures Spells(ranges, lines)
  {
    var sorted := SortBy(lines, AtMost);
    SortElements(lines, AtMost);
    SameElements(sorted, lines);
    ranges := [];
    for k := 0 to |sorted|
      invariant Spells(ranges, sorted[..k])
    {
      var line := sorted[k];
      assert sorted[..k + 1] == sorted[..k] + [line];
      ghost var before := ranges;
      if ranges != [] && line == ranges[|ranges| - 1].end + 1 {
        ranges := ranges[|ranges| - 1 := LineRange(ranges[|ranges| - 1].start, line)];
        assert ranges == before[..|before| - 1] + [LineRange(before[|before| - 1].start, line)];
      } else {
        ranges := ranges + [LineRange(line, line)];
      }
      ExtendStep(before, sorted[..k], line, ranges);
    }
    assert sorted[..|sorted|] == sorted;
  }
}

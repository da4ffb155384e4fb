/** The hunk part of ingest/diff.py: cursors over unified-diff lines (the "Diff -u or -U Output
    Format" of POSIX.1-2017), and exactly when the collected ranges are the changed lines. */
module Hunks {
  import opened Models
  import opened Ranges

  datatype Side = Old | New

  datatype Hunk = Hunk(oldStart: nat, oldCount: nat, newStart: nat, newCount: nat, body: seq<string>) {
    function Start(side: Side): nat { if side.New? then newStart else oldStart }
    function Count(side: Side): nat { if side.New? then newCount else oldCount }
  }

  // ---- the cursors -------------------------------------------------------

  predicate StartsWith(s: string, p: string) { |p| <= |s| && s[..|p|] == p }

  predicate IsAdded(line: string) { StartsWith(line, "+") && !StartsWith(line, "+++") }

  predicate IsRemoved(line: string) { StartsWith(line, "-") && !StartsWith(line, "---") }

  predicate IsContext(line: string) { StartsWith(line, " ") || StartsWith(line, "\t") || line == "" }

  /** Whether the code counts the line as a change of the side. */
  predicate Counted(line: string, side: Side) { if side.New? then IsAdded(line) else IsRemoved(line) }

  function AtLeastOne(n: nat): nat { if n == 0 then 1 else n }

  /** The side's cursor after the lines. */
  function Cursor(start: nat, body: seq<string>, side: Side): nat {
    if body == [] then AtLeastOne(start)
    else
      var before, line := Cursor(start, body[..|body| - 1], side), body[|body| - 1];
      if Counted(line, side) then before + 1
      else if IsAdded(line) || IsRemoved(line) then before
      else if IsContext(line) then before + 1
      else before
  }

  /** The line numbers the side collects. */
  function Collected(start: nat, body: seq<string>, side: Side): seq<nat> {
    if body == [] then []
    else
      var before, line := body[..|body| - 1], body[|body| - 1];
      Collected(start, before, side) + if Counted(line, side) then [Cursor(start, before, side)] else []
  }

  predicate SeenBody(body: seq<string>) {
    exists line :: line in body && (IsAdded(line) || IsRemoved(line))
  }

  /** The lines a committed hunk adds to the side's ranges: the collected ones, or as many as the
      header counts, from the cursor on, when no body line was counted on either side. */
  ghost predicate Commits(h: Hunk, side: Side, line: nat) {
    if SeenBody(h.body) then line in Collected(h.Start(side), h.body, side)
    else
      var from := Cursor(h.Start(side), h.body, side);
      from <= line < from + h.Count(side)
  }

  lemma SeenSnoc(body: seq<string>, line: string)
    ensures SeenBody(body + [line]) <==> SeenBody(body) || IsAdded(line) || IsRemoved(line)
  {
    assert line in body + [line];
    if SeenBody(body) {
      var l :| l in body && (IsAdded(l) || IsRemoved(l));
      assert l in body + [line];
    }
  }

  lemma JoinCovers(a: seq<LineRange>, b: seq<LineRange>)
    ensures forall line: nat :: Covers(a + b, line) <==> Covers(a, line) || Covers(b, line)
    ensures Proper(a) && Proper(b) ==> Proper(a + b)
  {
    forall line: nat ensures Covers(a + b, line) <==> Covers(a, line) || Covers(b, line) {
      if r :| r in a && Holds(r, line) { assert r in a + b; }
      if r :| r in b && Holds(r, line) { assert r in a + b; }
    }
  }

  lemma OneCovers(r: LineRange)
    ensures forall line: nat :: Covers([r], line) <==> Holds(r, line)
  {
    assert r in [r];
  }

  class FileAccumulator {
    var newRanges: seq<LineRange>
    var oldRanges: seq<LineRange>

    constructor ()
      ensures newRanges == [] && oldRanges == []
    {
      newRanges, oldRanges := [], [];
    }

    method Finish() returns (new': seq<LineRange>, old': seq<LineRange>)
      requires Proper(newRanges) && Proper(oldRanges)
      ensures IsMerged(newRanges, new') && IsMerged(oldRanges, old')
    {
      new' := MergeRanges(newRanges);
      old' := MergeRanges(oldRanges);
    }
  }

  class HunkState {
    const oldStart: nat
    const newStart: nat
    const oldCount: nat
    const newCount: nat
    ghost var body: seq<string>
    var oldCursor: nat
    var newCursor: nat
    var added: seq<nat>
    var removed: seq<nat>
    var seenBody: bool

    ghost function View(): Hunk
      reads this
    {
      Hunk(oldStart, oldCount, newStart, newCount, body)
    }

    /** The fields are what the lines consumed so far make them. */
    ghost predicate Valid()
      reads this
    {
      && oldCursor == Cursor(oldStart, body, Old) && newCursor == Cursor(newStart, body, New)
      && removed == Collected(oldStart, body, Old) && added == Collected(newStart, body, New)
      && seenBody == SeenBody(body)
    }

    constructor (oldStart: nat, oldCount: nat, newStart: nat, newCount: nat)
      ensures Valid() && View() == Hunk(oldStart, oldCount, newStart, newCount, [])
    {
      this.oldStart, this.oldCount, this.newStart, this.newCount := oldStart, oldCount, newStart, newCount;
      oldCursor, newCursor := AtLeastOne(oldStart), AtLeastOne(newStart);
      added, removed, seenBody, body := [], [], false, [];
    }

    method Consume(line: string)
      requires Valid()
      modifies this
      ensures Valid() && View() == old(View()).(body := old(body) + [line])
    {
      SeenSnoc(body, line);
      assert (body + [line])[..|body + [line]| - 1] == body;
      if IsAdded(line) {
        seenBody := true;
        added := added + [newCursor];
        newCursor := newCursor + 1;
      } else if IsRemoved(line) {
        seenBody := true;
        removed := removed + [oldCursor];
        oldCursor := oldCursor + 1;
      } else if IsContext(line) {
        newCursor := newCursor + 1;
        oldCursor := oldCursor + 1;
      }
      body := body + [line];
    }

    method Commit(target: FileAccumulator)
      requires Valid() && Proper(target.newRanges) && Proper(target.oldRanges)
      modifies target
      ensures Proper(target.newRanges) && Proper(target.oldRanges)
      ensures forall line: nat :: Covers(target.newRanges, line) <==>
        Covers(old(target.newRanges), line) || Commits(View(), New, line)
      ensures forall line: nat :: Covers(target.oldRanges, line) <==>
        Covers(old(target.oldRanges), line) || Commits(View(), Old, line)
    {
      if seenBody {
        var more := RangesFromLines(added);
        JoinCovers(target.newRanges, more);
        target.newRanges := target.newRanges + more;
        more := RangesFromLines(removed);
        JoinCovers(target.oldRanges, more);
        target.oldRanges := target.oldRanges + more;
        return;
      }
      if newCount > 0 {
        var range := LineRange(newCursor, newCursor + newCount - 1);
        OneCovers(range);
        JoinCovers(target.newRanges, [range]);
        target.newRanges := target.newRanges + [range];
      }
      if oldCount > 0 {
        var range := LineRange(oldCursor, oldCursor + oldCount - 1);
        OneCovers(range);
        JoinCovers(target.oldRanges, [range]);
        target.oldRanges := target.oldRanges + [range];
      }
    }
  }

  // ---- the parsing loop, for one file ------------------------------------

  datatype DiffLine = Header(oldStart: nat, oldCount: nat, newStart: nat, newCount: nat) | Body(text: string)

  /** The hunks of a file: lines before the first header belong to none. */
  function HunksOf(lines: seq<DiffLine>): seq<Hunk> {
    if lines == [] then []
    else
      var before, last := HunksOf(lines[..|lines| - 1]), lines[|lines| - 1];
      match last
      case Header(oldStart, oldCount, newStart, newCount) => before + [Hunk(oldStart, oldCount, newStart, newCount, [])]
      case Body(text) =>
        if before == [] then []
        else
          var h := before[|before| - 1];
          before[..|before| - 1] + [h.(body := h.body + [text])]
  }

  ghost predicate CommitsAny(hunks: seq<Hunk>, side: Side, line: nat) {
    exists h :: h in hunks && Commits(h, side, line)
  }

  /** The side's ranges cover exactly what the hunks commit. */
  ghost predicate Accumulated(ranges: seq<LineRange>, hunks: seq<Hunk>, side: Side) {
    Proper(ranges) && forall line: nat :: Covers(ranges, line) <==> CommitsAny(hunks, side, line)
  }

  lemma CommitsSnoc(hunks: seq<Hunk>, h: Hunk, side: Side, line: nat)
    ensures CommitsAny(hunks + [h], side, line) <==> CommitsAny(hunks, side, line) || Commits(h, side, line)
  {
    assert h in hunks + [h];
    if CommitsAny(hunks, side, line) {
      var g :| g in hunks && Commits(g, side, line);
      assert g in hunks + [h];
    }
  }

  method CommitInto(hunk: HunkState, target: FileAccumulator, ghost hunks: seq<Hunk>)
    requires hunk.Valid()
    requires Accumulated(target.newRanges, hunks, New) && Accumulated(target.oldRanges, hunks, Old)
    modifies target
    ensures Accumulated(target.newRanges, hunks + [hunk.View()], New)
    ensures Accumulated(target.oldRanges, hunks + [hunk.View()], Old)
  {
    hunk.Commit(target);
    forall line: nat, side: Side
      ensures CommitsAny(hunks + [hunk.View()], side, line) <==>
        CommitsAny(hunks, side, line) || Commits(hunk.View(), side, line)
    {
      CommitsSnoc(hunks, hunk.View(), side, line);
    }
  }

  /** Everything before the open hunk has been committed. */
  ghost predicate Parsed(all: seq<Hunk>, committed: seq<Hunk>, hunk: HunkState?, target: FileAccumulator)
    reads hunk, target
  {
    && Accumulated(target.newRanges, committed, New) && Accumulated(target.oldRanges, committed, Old)
    && (hunk == null ==> all == committed == [])
    && (hunk != null ==> hunk.Valid() && all == committed + [hunk.View()])
  }

  method Advance(line: DiffLine, hunk: HunkState?, target: FileAccumulator, ghost all: seq<Hunk>,
                 ghost committed: seq<Hunk>)
    returns (hunk': HunkState?, ghost committed': seq<Hunk>)
    requires Parsed(all, committed, hunk, target)
    modifies hunk, target
    ensures hunk' == hunk || fresh(hunk')
    ensures Parsed(
      match line
      case Header(a, b, c, d) => all + [Hunk(a, b, c, d, [])]
      case Body(text) =>
        if all == [] then [] else all[..|all| - 1] + [all[|all| - 1].(body := all[|all| - 1].body + [text])],
      committed', hunk', target)
  {
    hunk', committed' := hunk, committed;
    match line {
      case Header(a, b, c, d) =>
        if hunk != null {
          CommitInto(hunk, target, committed);
          committed' := committed + [hunk.View()];
        }
        hunk' := new HunkState(a, b, c, d);
      case Body(text) =>
        if hunk != null {
          hunk.Consume(text);
        }
    }
  }

  method ParseFile(lines: seq<DiffLine>) returns (newRanges: seq<LineRange>, oldRanges: seq<LineRange>)
    ensures Canonical(newRanges) && Canonical(oldRanges)
    ensures Accumulated(newRanges, HunksOf(lines), New) && Accumulated(oldRanges, HunksOf(lines), Old)
  {
    var current := new FileAccumulator();
    var hunk: HunkState? := null;
    ghost var committed: seq<Hunk> := [];
    for k := 0 to |lines|
      invariant fresh(current) && (hunk != null ==> fresh(hunk))
      invariant Parsed(HunksOf(lines[..k]), committed, hunk, current)
    {
      assert lines[..k + 1][..k] == lines[..k];
      hunk, committed := Advance(lines[k], hunk, current, HunksOf(lines[..k]), committed);
    }
    assert lines[..|lines|] == lines;
    if hunk != null {
      CommitInto(hunk, current, committed);
    }
    newRanges, oldRanges := current.Finish();
  }
}

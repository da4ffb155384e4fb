/** How the lines of a diff are told apart, where the cursors stand after them, and which hunk they belong to. */
module HunkFacts {
  import opened Hunks

  // ---- one line ----------------------------------------------------------

  predicate Marked(line: string, mark: char) { |line| > 0 && line[0] == mark }

  predicate TripleMarked(line: string, mark: char) {
    |line| > 2 && line[0] == mark && line[1] == mark && line[2] == mark
  }

  /** A plus that is not three is an addition, a minus that is not three a removal; a blank, a tab or nothing at all is
      context. */
  lemma {:induction false} LineKinds(line: string)
    ensures IsAdded(line) <==> Marked(line, '+') && !TripleMarked(line, '+')
    ensures IsRemoved(line) <==> Marked(line, '-') && !TripleMarked(line, '-')
    ensures IsContext(line) <==> line == "" || Marked(line, ' ') || Marked(line, '\t')
  {
    if |line| > 0 { assert line[..1] == [line[0]]; }
    if |line| > 2 { assert line[..3] == [line[0], line[1], line[2]]; }
  }

  // ---- the cursors -------------------------------------------------------

  /** Lines that exist on the side as the code reads them. */
  predicate Moves(line: string, side: Side) {
    || Marked(line, ' ') || Marked(line, '\t') || line == ""
    || (side.New? && Marked(line, '+') && !TripleMarked(line, '+'))
    || (side.Old? && Marked(line, '-') && !TripleMarked(line, '-'))
  }

  function MovedBy(body: seq<string>, side: Side): set<nat> {
    set i: nat | i < |body| && Moves(body[i], side)
  }

  lemma {:induction false} MovedBySnoc(body: seq<string>, last: string, side: Side)
    ensures |MovedBy(body + [last], side)| == |MovedBy(body, side)| + if Moves(last, side) then 1 else 0
  {
    var n, longer := |body|, body + [last];
    if Moves(last, side) {
      assert MovedBy(longer, side) == MovedBy(body, side) + {n};
    } else {
      assert MovedBy(longer, side) == MovedBy(body, side);
    }
  }

  /** A cursor starts at the header's line, or at one, and has moved once for each line of its side. */
  lemma {:induction false} CursorIs(start: nat, body: seq<string>, side: Side)
    ensures Cursor(start, body, side) == (if start > 0 then start else 1) + |MovedBy(body, side)|
    decreases |body|
  {
    if body == [] {
      assert MovedBy(body, side) == {};
    } else {
      var before, last := body[..|body| - 1], body[|body| - 1];
      CursorIs(start, before, side);
      LineKinds(last);
      MovedBySnoc(before, last, side);
      assert before + [last] == body;
    }
  }

  /** A header alone stands for as many lines as it counts, from where it starts, on each side. */
  lemma {:induction false} HeaderAlone(oldStart: nat, oldCount: nat, newStart: nat, newCount: nat, line: nat)
    ensures var h := Hunk(oldStart, oldCount, newStart, newCount, []);
      var oldFrom, newFrom := if oldStart > 0 then oldStart else 1, if newStart > 0 then newStart else 1;
      && (Commits(h, Old, line) <==> oldFrom <= line < oldFrom + oldCount)
      && (Commits(h, New, line) <==> newFrom <= line < newFrom + newCount)
  {
    assert !SeenBody([]);
  }

  // ---- the hunks of a file -----------------------------------------------

  function Bodies(body: seq<string>): (r: seq<DiffLine>)
    ensures |r| == |body|
  {
    seq(|body|, i requires 0 <= i < |body| => Body(body[i]))
  }

  /** A hunk as it is written: its header, then its lines. */
  function Written(h: Hunk): seq<DiffLine> {
    [Header(h.oldStart, h.oldCount, h.newStart, h.newCount)] + Bodies(h.body)
  }

  function WrittenAll(hunks: seq<Hunk>): seq<DiffLine> {
    if hunks == [] then [] else WrittenAll(hunks[..|hunks| - 1]) + Written(hunks[|hunks| - 1])
  }

  /** The lines are read as these hunks. */
  predicate ReadAs(lines: seq<DiffLine>, hunks: seq<Hunk>) { HunksOf(lines) == hunks }

  lemma {:induction false} HeaderRead(lines: seq<DiffLine>, header: DiffLine, all: seq<DiffLine>, hunks: seq<Hunk>,
                                      more: seq<Hunk>)
    requires header.Header? && all == lines + [header] && ReadAs(lines, hunks)
    requires more == hunks + [Hunk(header.oldStart, header.oldCount, header.newStart, header.newCount, [])]
    ensures ReadAs(all, more)
  {
    assert all[..|all| - 1] == lines;
  }

  lemma {:induction false} BodyRead(lines: seq<DiffLine>, text: string, all: seq<DiffLine>, hunks: seq<Hunk>, h: Hunk,
                                    more: seq<Hunk>)
    requires all == lines + [Body(text)] && ReadAs(lines, hunks + [h])
    requires more == hunks + [h.(body := h.body + [text])]
    ensures ReadAs(all, more)
  {
    assert all[..|all| - 1] == lines;
    assert (hunks + [h])[..|hunks|] == hunks;
  }

  lemma {:induction false} PrefaceRead(lines: seq<DiffLine>, text: string, all: seq<DiffLine>)
    requires all == lines + [Body(text)] && ReadAs(lines, [])
    ensures ReadAs(all, [])
  {
    assert all[..|all| - 1] == lines;
  }

  lemma {:induction false} BodiesSnoc(body: seq<string>)
    requires body != []
    ensures var n := |body| - 1; Bodies(body) == Bodies(body[..n]) + [Body(body[n])]
  {
  }

  /** Lines before the first header belong to no hunk. */
  lemma {:induction false} PrefaceIsNone(preface: seq<string>)
    ensures ReadAs(Bodies(preface), [])
    decreases |preface|
  {
    if preface != [] {
      var n := |preface| - 1;
      PrefaceIsNone(preface[..n]);
      BodiesSnoc(preface);
      PrefaceRead(Bodies(preface[..n]), preface[n], Bodies(preface));
    }
  }

  lemma {:induction false} WrittenSnoc(lines: seq<DiffLine>, h: Hunk)
    requires h.body != []
    ensures var n := |h.body| - 1;
      lines + Written(h) == (lines + Written(h.(body := h.body[..n]))) + [Body(h.body[n])]
  {
    BodiesSnoc(h.body);
  }

  lemma {:induction false} WrittenHeader(lines: seq<DiffLine>, h: Hunk)
    requires h.body == []
    ensures lines + Written(h) == lines + [Header(h.oldStart, h.oldCount, h.newStart, h.newCount)]
  {
  }

  lemma {:induction false} HunkRead(lines: seq<DiffLine>, h: Hunk, hunks: seq<Hunk>)
    requires ReadAs(lines, hunks)
    ensures ReadAs(lines + Written(h), hunks + [h])
    decreases |h.body|
  {
    if h.body == [] {
      WrittenHeader(lines, h);
      HeaderRead(lines, Written(h)[0], lines + Written(h), hunks, hunks + [h]);
    } else {
      var n := |h.body| - 1;
      var shorter := h.(body := h.body[..n]);
      HunkRead(lines, shorter, hunks);
      WrittenSnoc(lines, h);
      assert h.body[..n] + [h.body[n]] == h.body;
      BodyRead(lines + Written(shorter), h.body[n], lines + Written(h), hunks, shorter, hunks + [h]);
    }
  }

  /** A preface, then the hunks one by one. */
  function FileLines(preface: seq<string>, hunks: seq<Hunk>): seq<DiffLine> { Bodies(preface) + WrittenAll(hunks) }

  lemma {:induction false} FileLinesSnoc(preface: seq<string>, hunks: seq<Hunk>, h: Hunk)
    ensures FileLines(preface, hunks + [h]) == FileLines(preface, hunks) + Written(h)
  {
    var all := hunks + [h];
    assert all[..|all| - 1] == hunks;
    assert WrittenAll(all) == WrittenAll(hunks) + Written(h);
  }

  lemma {:induction false} OneMoreHunk(preface: seq<string>, hunks: seq<Hunk>, h: Hunk, all: seq<Hunk>)
    requires all == hunks + [h] && ReadAs(FileLines(preface, hunks), hunks)
    ensures ReadAs(FileLines(preface, all), all)
  {
    FileLinesSnoc(preface, hunks, h);
    HunkRead(FileLines(preface, hunks), h, hunks);
  }

  /** What is written hunk by hunk, after any preface, is read as those hunks. */
  lemma {:induction false} HunksAreRead(preface: seq<string>, hunks: seq<Hunk>)
    ensures ReadAs(FileLines(preface, hunks), hunks)
    decreases |hunks|
  {
    if hunks == [] {
      PrefaceIsNone(preface);
      assert FileLines(preface, hunks) == Bodies(preface);
    } else {
      HunksAreRead(preface, hunks[..|hunks| - 1]);
      OneMoreHunk(preface, hunks[..|hunks| - 1], hunks[|hunks| - 1], hunks);
    }
  }
}

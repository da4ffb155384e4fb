/** What a unified diff says changed, defined on edit scripts and not on the parser's cursors, and
    exactly when the parsed ranges are those lines. */
module DiffMeaning {
  import opened Models
  import opened Ranges
  import opened Hunks

  /** One body line of a hunk as an edit; the last form is the missing-newline marker. */
  datatype Op = Keep(text: string) | Add(text: string) | Remove(text: string) | NoEol

  /** A line as read: a carriage return at its end may have gone with the line feed. */
  predicate Reads(line: string, written: string) { line == written || line + "\r" == written }

  predicate Renders(op: Op, line: string) {
    match op
    case Keep(text) => Reads(line, " " + text) || (line == "" && Reads(line, text))
    case Add(text) => Reads(line, "+" + text)
    case Remove(text) => Reads(line, "-" + text)
    case NoEol => StartsWith(line, "\\")
  }

  /** The edit's line exists in the side's file. */
  predicate OnSide(op: Op, side: Side) { op.Keep? || Changed(op, side) }

  predicate Changed(op: Op, side: Side) { if side.New? then op.Add? else op.Remove? }

  /** Rendered, the change looks like a file header line, and the parser passes over it. */
  predicate Hidden(op: Op) {
    (op.Add? && StartsWith(op.text, "++")) || (op.Remove? && StartsWith(op.text, "--"))
  }

  function LinesOf(ops: seq<Op>, side: Side): nat {
    if ops == [] then 0
    else LinesOf(ops[..|ops| - 1], side) + if OnSide(ops[|ops| - 1], side) then 1 else 0
  }

  /** `line` of the side's file is one the edits added to it or removed from it. */
  ghost predicate Truly(ops: seq<Op>, side: Side, base: nat, line: nat) {
    exists i :: ChangesAt(ops, side, base, i, line)
  }

  ghost predicate ChangesAt(ops: seq<Op>, side: Side, base: nat, i: int, line: nat) {
    0 <= i < |ops| && Changed(ops[i], side) && line == base + LinesOf(ops[..i], side)
  }

  /** The hunk is a correct rendering of the edits, starting at line `base` of the side's file. An empty
      range names the line before it. */
  ghost predicate Describes(h: Hunk, ops: seq<Op>, side: Side, base: nat) {
    && |h.body| == |ops| && (forall i :: 0 <= i < |ops| ==> Renders(ops[i], h.body[i]))
    && base > 0 && h.Count(side) == LinesOf(ops, side)
    && h.Start(side) == if h.Count(side) == 0 then base - 1 else base
  }

  predicate Visible(op: Op) { (op.Add? || op.Remove?) && !Hidden(op) }

  predicate AnyVisible(ops: seq<Op>) { exists op :: op in ops && Visible(op) }

  /** The exact condition for one hunk and one side. */
  predicate ExactHere(ops: seq<Op>, side: Side) {
    if AnyVisible(ops) then forall op :: op in ops && Changed(op, side) ==> !Hidden(op)
    else forall op :: op in ops ==> !op.Keep?
  }

  // ---- the code's view of a rendered line --------------------------------

  lemma FirstCharacter(line: string, mark: char)
    ensures StartsWith(line, [mark]) <==> line != "" && line[0] == mark
  {
    if line != "" { assert line[..1] == [line[0]]; }
  }

  lemma FirstThree(text: string, mark: char)
    ensures StartsWith([mark] + text, [mark, mark, mark]) <==> StartsWith(text, [mark, mark])
  {
    var line := [mark] + text;
    if |text| >= 2 {
      assert line[..3] == [mark] + text[..2];
      assert [mark, mark, mark] == [mark] + [mark, mark];
      assert line[..3][1..] == text[..2] && [mark, mark, mark][1..] == [mark, mark];
    }
  }

  /** Reading a marked line leaves its mark, and its doubling if it is there. */
  lemma {:induction false} ReadMarked(line: string, mark: char, text: string)
    requires Reads(line, [mark] + text) && mark != '\r'
    ensures line != "" && line[0] == mark
    ensures StartsWith(line, [mark, mark, mark]) <==> StartsWith(text, [mark, mark])
  {
    if line + "\r" == [mark] + text {
      var written := [mark] + text;
      assert written[0] == mark && written[|written| - 1] == '\r' && line == written[..|written| - 1];
      var rest := text[..|text| - 1];
      assert written[1..] == text && text[|text| - 1] == '\r';
      assert line == [mark] + rest && text == rest + "\r";
      FirstThree(rest, mark);
      if |rest| >= 2 { assert text[..2] == rest[..2]; }
      if |text| == 2 { assert text[1] == '\r'; }
    } else {
      FirstThree(text, mark);
    }
  }

  lemma {:induction false} RenderedLine(op: Op, line: string, side: Side)
    requires Renders(op, line)
    ensures Counted(line, side) <==> Changed(op, side) && !Hidden(op)
    ensures IsAdded(line) || IsRemoved(line) <==> Visible(op)
    ensures !IsAdded(line) && !IsRemoved(line) ==> (IsContext(line) <==> op.Keep?)
  {
    FirstCharacter(line, '+');
    FirstCharacter(line, '-');
    FirstCharacter(line, ' ');
    FirstCharacter(line, '\t');
    match op
    case Keep(text) => if line != "" { ReadMarked(line, ' ', text); }
    case Add(text) => ReadMarked(line, '+', text);
    case Remove(text) => ReadMarked(line, '-', text);
    case NoEol => FirstCharacter(line, '\\');
  }

  /** Side lines the cursor moves over. */
  function Moved(ops: seq<Op>, side: Side): nat {
    if ops == [] then 0
    else Moved(ops[..|ops| - 1], side) + if OnSide(ops[|ops| - 1], side) && !Hidden(ops[|ops| - 1]) then 1 else 0
  }

  ghost predicate Rendered(ops: seq<Op>, body: seq<string>) {
    |body| == |ops| && forall i :: 0 <= i < |ops| ==> Renders(ops[i], body[i])
  }

  lemma {:induction false} CursorMoves(start: nat, ops: seq<Op>, body: seq<string>, side: Side)
    requires Rendered(ops, body)
    ensures Cursor(start, body, side) == AtLeastOne(start) + Moved(ops, side)
  {
    if ops != [] {
      CursorMoves(start, ops[..|ops| - 1], body[..|body| - 1], side);
      RenderedLine(ops[|ops| - 1], body[|body| - 1], side);
    }
  }

  lemma CollectsPrefix(ops: seq<Op>, side: Side, from: nat, i: int, line: nat)
    requires ops != [] && i < |ops| - 1
    ensures CollectsAt(ops[..|ops| - 1], side, from, i, line) <==> CollectsAt(ops, side, from, i, line)
  {
    if 0 <= i { assert ops[..i] == ops[..|ops| - 1][..i]; }
  }

  ghost predicate Collects(ops: seq<Op>, side: Side, from: nat, line: nat) {
    exists i :: CollectsAt(ops, side, from, i, line)
  }

  lemma CollectsSnoc(ops: seq<Op>, side: Side, from: nat, line: nat)
    requires ops != []
    ensures Collects(ops, side, from, line) <==>
      Collects(ops[..|ops| - 1], side, from, line) || CollectsAt(ops, side, from, |ops| - 1, line)
  {
    var rest := ops[..|ops| - 1];
    if Collects(ops, side, from, line) {
      var i :| CollectsAt(ops, side, from, i, line);
      if i < |rest| { CollectsPrefix(ops, side, from, i, line); }
    }
    if Collects(rest, side, from, line) {
      var i :| CollectsAt(rest, side, from, i, line);
      CollectsPrefix(ops, side, from, i, line);
    }
  }

  lemma {:induction false} CollectedLast(start: nat, ops: seq<Op>, body: seq<string>, side: Side, line: nat)
    requires ops != [] && Rendered(ops, body)
    ensures var last := |ops| - 1;
      CollectsAt(ops, side, AtLeastOne(start), last, line) <==>
        Counted(body[last], side) && line == Cursor(start, body[..last], side)
  {
    var last := |ops| - 1;
    RenderedLine(ops[last], body[last], side);
    CursorMoves(start, ops[..last], body[..last], side);
  }

  lemma {:induction false} CollectedAre(start: nat, ops: seq<Op>, body: seq<string>, side: Side, line: nat)
    requires Rendered(ops, body)
    ensures line in Collected(start, body, side) <==> Collects(ops, side, AtLeastOne(start), line)
  {
    if ops != [] {
      CollectedAre(start, ops[..|ops| - 1], body[..|ops| - 1], side, line);
      CollectedLast(start, ops, body, side, line);
      CollectsSnoc(ops, side, AtLeastOne(start), line);
    }
  }

  ghost predicate CollectsAt(ops: seq<Op>, side: Side, from: nat, i: int, line: nat) {
    0 <= i < |ops| && Changed(ops[i], side) && !Hidden(ops[i]) && line == from + Moved(ops[..i], side)
  }

  lemma SeenIsVisible(ops: seq<Op>, body: seq<string>)
    requires Rendered(ops, body)
    ensures SeenBody(body) <==> AnyVisible(ops)
  {
    if SeenBody(body) {
      var line :| line in body && (IsAdded(line) || IsRemoved(line));
      var i :| 0 <= i < |body| && body[i] == line;
      RenderedLine(ops[i], body[i], New);
      assert ops[i] in ops;
    }
    if AnyVisible(ops) {
      var op :| op in ops && Visible(op);
      var i :| 0 <= i < |ops| && ops[i] == op;
      RenderedLine(ops[i], body[i], New);
      assert body[i] in body;
    }
  }

  // ---- counting ----------------------------------------------------------

  lemma {:induction false} MovedAtMost(ops: seq<Op>, side: Side)
    ensures Moved(ops, side) <= LinesOf(ops, side)
    ensures Moved(ops, side) == LinesOf(ops, side) <==> forall op :: op in ops && Changed(op, side) ==> !Hidden(op)
  {
    if ops != [] {
      var rest, last := ops[..|ops| - 1], ops[|ops| - 1];
      MovedAtMost(rest, side);
      assert ops == rest + [last];
      assert forall op :: op in ops <==> op in rest || op == last;
    }
  }

  lemma {:induction false} MovedGrows(ops: seq<Op>, side: Side, i: nat, j: nat)
    requires i <= j <= |ops|
    ensures Moved(ops[..i], side) <= Moved(ops[..j], side)
    ensures i < j && OnSide(ops[i], side) && !Hidden(ops[i]) ==> Moved(ops[..i], side) < Moved(ops[..j], side)
    decreases j
  {
    if i < j {
      MovedGrows(ops, side, i, j - 1);
      assert ops[..j][..j - 1] == ops[..j - 1];
    }
  }

  lemma {:induction false} LinesGrow(ops: seq<Op>, side: Side, i: nat, j: nat)
    requires i <= j <= |ops|
    ensures LinesOf(ops[..i], side) <= LinesOf(ops[..j], side)
    ensures i < j && OnSide(ops[i], side) ==> LinesOf(ops[..i], side) < LinesOf(ops[..j], side)
    decreases j
  {
    if i < j {
      LinesGrow(ops, side, i, j - 1);
      assert ops[..j][..j - 1] == ops[..j - 1];
    }
  }

  /** True lines lie within the hunk's part of the file. */
  lemma TrulyInside(ops: seq<Op>, side: Side, base: nat, line: nat)
    requires Truly(ops, side, base, line)
    ensures base <= line < base + LinesOf(ops, side)
  {
    var i :| ChangesAt(ops, side, base, i, line);
    LinesGrow(ops, side, i, |ops|);
    assert ops[..|ops|] == ops;
  }

  /** With nothing kept, every line of the hunk's part of the file is changed. */
  lemma {:induction false} AllChanged(ops: seq<Op>, side: Side, base: nat, line: nat)
    requires forall op :: op in ops ==> !op.Keep?
    requires base <= line < base + LinesOf(ops, side)
    ensures Truly(ops, side, base, line)
  {
    var rest, last := ops[..|ops| - 1], ops[|ops| - 1];
    assert last in ops && forall op :: op in rest ==> op in ops;
    if line < base + LinesOf(rest, side) {
      AllChanged(rest, side, base, line);
      var i :| ChangesAt(rest, side, base, i, line);
      assert rest[..i] == ops[..i];
      assert ChangesAt(ops, side, base, i, line);
    } else {
      assert ChangesAt(ops, side, base, |ops| - 1, line);
    }
  }

  // ---- one hunk ----------------------------------------------------------

  ghost predicate SameLines(h: Hunk, ops: seq<Op>, side: Side, base: nat) {
    forall line: nat :: Commits(h, side, line) <==> Truly(ops, side, base, line)
  }

  lemma VisibleExact(h: Hunk, ops: seq<Op>, side: Side, base: nat, line: nat)
    requires Describes(h, ops, side, base) && AnyVisible(ops)
    requires forall op :: op in ops && Changed(op, side) ==> !Hidden(op)
    ensures Commits(h, side, line) <==> Truly(ops, side, base, line)
  {
    SeenIsVisible(ops, h.body);
    CollectedAre(h.Start(side), ops, h.body, side, line);
    forall i: int | 0 <= i < |ops| && Changed(ops[i], side)
      ensures ChangesAt(ops, side, base, i, line) <==> CollectsAt(ops, side, AtLeastOne(h.Start(side)), i, line)
    {
      assert ops[i] in ops && forall op :: op in ops[..i] ==> op in ops;
      MovedAtMost(ops[..i], side);
      LinesGrow(ops, side, i, |ops|);
      assert ops[..|ops|] == ops;
    }
    var from := AtLeastOne(h.Start(side));
    if Truly(ops, side, base, line) {
      var i :| ChangesAt(ops, side, base, i, line);
      assert CollectsAt(ops, side, from, i, line);
    }
    if Collects(ops, side, from, line) {
      var i :| CollectsAt(ops, side, from, i, line);
      assert ChangesAt(ops, side, base, i, line);
    }
  }

  /** The last changed line of the side is lost as soon as one change is hidden. */
  lemma HiddenLoses(h: Hunk, ops: seq<Op>, side: Side, base: nat, k: nat) returns (line: nat)
    requires Describes(h, ops, side, base) && AnyVisible(ops)
    requires k < |ops| && Changed(ops[k], side) && Hidden(ops[k])
    ensures Truly(ops, side, base, line) && !Commits(h, side, line)
  {
    var m := LastChanged(ops, side, k);
    line := base + LinesOf(ops[..m], side);
    assert ChangesAt(ops, side, base, m, line);
    SeenIsVisible(ops, h.body);
    CollectedAre(h.Start(side), ops, h.body, side, line);
    LinesGrow(ops, side, m, |ops|);
    assert ops[..|ops|] == ops;
    MovedAtMost(ops[..m], side);
    if k < m {
      assert ops[..m][k] == ops[k];
      assert ops[k] in ops[..m];
    }
    forall i | 0 <= i < |ops| && Changed(ops[i], side) && !Hidden(ops[i])
      ensures base + Moved(ops[..i], side) < line
    {
      MovedGrows(ops, side, i, m);
    }
  }

  lemma {:induction false} LastChanged(ops: seq<Op>, side: Side, k: nat) returns (m: nat)
    requires k < |ops| && Changed(ops[k], side)
    ensures k <= m < |ops| && Changed(ops[m], side)
    ensures forall i :: m < i < |ops| ==> !Changed(ops[i], side)
    decreases |ops| - k
  {
    m := k;
    if i :| k < i < |ops| && Changed(ops[i], side) {
      m := LastChanged(ops, side, i);
    }
  }

  lemma {:induction false} MovedOnlyKeeps(ops: seq<Op>, side: Side)
    requires !AnyVisible(ops)
    ensures Moved(ops, side) <= LinesOf(ops, side)
    ensures Moved(ops, side) == 0 <==> forall op :: op in ops ==> !op.Keep?
  {
    if ops != [] {
      var rest, last := ops[..|ops| - 1], ops[|ops| - 1];
      assert ops == rest + [last];
      assert forall op :: op in ops <==> op in rest || op == last;
      assert last in ops && !Visible(last);
      MovedOnlyKeeps(rest, side);
      assert last.Keep? <==> OnSide(last, side) && !Hidden(last);
    }
  }

  lemma HeaderExactIff(h: Hunk, ops: seq<Op>, side: Side, base: nat)
    requires Describes(h, ops, side, base) && !AnyVisible(ops)
    ensures SameLines(h, ops, side, base) <==> forall op :: op in ops ==> !op.Keep?
  {
    SeenIsVisible(ops, h.body);
    CursorMoves(h.Start(side), ops, h.body, side);
    MovedOnlyKeeps(ops, side);
    if forall op :: op in ops ==> !op.Keep? {
      forall line: nat ensures Commits(h, side, line) <==> Truly(ops, side, base, line) {
        if base <= line < base + LinesOf(ops, side) { AllChanged(ops, side, base, line); }
        if Truly(ops, side, base, line) { TrulyInside(ops, side, base, line); }
      }
    } else {
      var beyond := base + Moved(ops, side) + LinesOf(ops, side) - 1;
      assert Commits(h, side, beyond);
      if Truly(ops, side, base, beyond) { TrulyInside(ops, side, base, beyond); }
    }
  }

  /** A hunk contributes exactly the side's changed lines if and only if the condition holds. */
  lemma HunkExactIff(h: Hunk, ops: seq<Op>, side: Side, base: nat)
    requires Describes(h, ops, side, base)
    ensures SameLines(h, ops, side, base) <==> ExactHere(ops, side)
  {
    if !AnyVisible(ops) {
      HeaderExactIff(h, ops, side, base);
    } else if ExactHere(ops, side) {
      forall line: nat ensures Commits(h, side, line) <==> Truly(ops, side, base, line) {
        VisibleExact(h, ops, side, base, line);
      }
    } else {
      var op :| op in ops && Changed(op, side) && Hidden(op);
      var k :| 0 <= k < |ops| && ops[k] == op;
      var line := HiddenLoses(h, ops, side, base, k);
    }
  }

  /** A zero-context hunk says the same with its header alone as with its body. */
  lemma ZeroContextHeader(h: Hunk, ops: seq<Op>, side: Side, base: nat, line: nat)
    requires Describes(h, ops, side, base) && ExactHere(ops, side)
    requires forall op :: op in ops ==> !op.Keep?
    ensures Commits(h.(body := []), side, line) <==> Commits(h, side, line)
  {
    HunkExactIff(h, ops, side, base);
    var bare := h.(body := []);
    assert !SeenBody(bare.body) && Cursor(h.Start(side), [], side) == AtLeastOne(h.Start(side));
    if base <= line < base + LinesOf(ops, side) { AllChanged(ops, side, base, line); }
    if Truly(ops, side, base, line) { TrulyInside(ops, side, base, line); }
    assert Commits(h, side, line) <==> Truly(ops, side, base, line);
  }

  lemma {:induction false} TwoAdditions(h: Hunk, ops: seq<Op>)
    requires h == Hunk(0, 0, 1, 2, ["+a", "+++b"]) && ops == [Add("a"), Add("++b")]
    ensures Describes(h, ops, New, 1) && AnyVisible(ops) && Hidden(ops[1]) && Truly(ops, New, 1, 2)
  {
    assert ops[..1] == [Add("a")] && ops[..1][..0] == [];
    assert LinesOf(ops[..1], New) == 1 && LinesOf(ops, New) == 2;
    assert "+" + "a" == "+a" && "+" + "++b" == "+++b";
    assert ops[0] in ops && Visible(ops[0]);
    assert "++b"[..2] == "++";
    assert ChangesAt(ops, New, 1, 1, 2);
  }

  /** A concrete hunk that loses a line: an added line whose text begins with "++". */
  lemma {:induction false} HiddenAddition()
    ensures var h := Hunk(0, 0, 1, 2, ["+a", "+++b"]);
      var ops := [Add("a"), Add("++b")];
      && Describes(h, ops, New, 1) && Truly(ops, New, 1, 2) && !Commits(h, New, 2)
  {
    var h := Hunk(0, 0, 1, 2, ["+a", "+++b"]);
    var ops := [Add("a"), Add("++b")];
    TwoAdditions(h, ops);
    CollectedAre(1, ops, h.body, New, 2);
    SeenIsVisible(ops, h.body);
    assert ops[..0] == [];
  }

  // ---- a whole file ------------------------------------------------------

  /** A stretch of unchanged lines outside any hunk, then the edits of one hunk. */
  datatype Piece = Piece(skipped: nat, ops: seq<Op>)

  /** The side's line at which hunk `k` begins. */
  function Base(pieces: seq<Piece>, side: Side, k: nat): (b: nat)
    requires k < |pieces|
    ensures b > 0
  {
    if k == 0 then 1 + pieces[0].skipped
    else Base(pieces, side, k - 1) + LinesOf(pieces[k - 1].ops, side) + pieces[k].skipped
  }

  ghost predicate DescribesFile(hunks: seq<Hunk>, pieces: seq<Piece>, side: Side) {
    && |hunks| == |pieces|
    && forall k :: 0 <= k < |pieces| ==> Describes(hunks[k], pieces[k].ops, side, Base(pieces, side, k))
  }

  ghost predicate ChangedIn(pieces: seq<Piece>, side: Side, k: int, line: nat) {
    0 <= k < |pieces| && Truly(pieces[k].ops, side, Base(pieces, side, k), line)
  }

  /** The side's line was changed by the edits of the file. */
  ghost predicate ChangedLine(pieces: seq<Piece>, side: Side, line: nat) {
    exists k :: ChangedIn(pieces, side, k, line)
  }

  /** If the condition holds of every hunk, the parsed ranges are the canonical list of exactly the
      changed lines, and no other canonical list is. */
  lemma FileRangesAreChangedLines(ranges: seq<LineRange>, hunks: seq<Hunk>, pieces: seq<Piece>, side: Side,
                                  other: seq<LineRange>)
    requires DescribesFile(hunks, pieces, side)
    requires Canonical(ranges) && Accumulated(ranges, hunks, side)
    requires forall p :: p in pieces ==> ExactHere(p.ops, side)
    ensures forall line: nat :: Covers(ranges, line) <==> ChangedLine(pieces, side, line)
    ensures Canonical(other) && (forall line: nat :: Covers(other, line) <==> ChangedLine(pieces, side, line)) ==>
      other == ranges
  {
    forall line: nat ensures Covers(ranges, line) <==> ChangedLine(pieces, side, line) {
      forall k | 0 <= k < |pieces| ensures Commits(hunks[k], side, line) <==> ChangedIn(pieces, side, k, line) {
        assert pieces[k] in pieces;
        HunkExactIff(hunks[k], pieces[k].ops, side, Base(pieces, side, k));
      }
      FileLine(hunks, pieces, side, line);
    }
    if Canonical(other) && forall line: nat :: Covers(other, line) <==> ChangedLine(pieces, side, line) {
      CanonicalUnique(other, ranges);
    }
  }

  lemma FileLine(hunks: seq<Hunk>, pieces: seq<Piece>, side: Side, line: nat)
    requires |hunks| == |pieces|
    requires forall k :: 0 <= k < |pieces| ==> (Commits(hunks[k], side, line) <==> ChangedIn(pieces, side, k, line))
    ensures CommitsAny(hunks, side, line) <==> ChangedLine(pieces, side, line)
  {
    if CommitsAny(hunks, side, line) {
      var h :| h in hunks && Commits(h, side, line);
      var k :| 0 <= k < |hunks| && hunks[k] == h;
      assert ChangedIn(pieces, side, k, line);
    }
    if ChangedLine(pieces, side, line) {
      var k :| ChangedIn(pieces, side, k, line);
      assert hunks[k] in hunks;
    }
  }

  lemma {:induction false} BasesApart(pieces: seq<Piece>, side: Side, j: nat, k: nat)
    requires j < k < |pieces|
    ensures Base(pieces, side, j) + LinesOf(pieces[j].ops, side) + pieces[k].skipped <= Base(pieces, side, k)
  {
    if j < k - 1 { BasesApart(pieces, side, j, k - 1); }
  }

  /** Some unchanged line lies between any two hunks; adjacent edits are one hunk. */
  ghost predicate Separated(pieces: seq<Piece>) {
    forall k :: 0 < k < |pieces| ==> pieces[k].skipped > 0
  }

  predicate Inside(pieces: seq<Piece>, side: Side, k: nat, line: nat)
    requires k < |pieces|
  {
    Base(pieces, side, k) <= line < Base(pieces, side, k) + LinesOf(pieces[k].ops, side)
  }

  /** The parts of the file that the hunks describe do not overlap. */
  lemma {:induction false} PartsDisjoint(pieces: seq<Piece>, side: Side, j: nat, k: nat, line: nat)
    requires j < |pieces| && k < |pieces| && Inside(pieces, side, j, line) && Inside(pieces, side, k, line)
    ensures j == k
  {
    if j < k { BasesApart(pieces, side, j, k); }
    if k < j { BasesApart(pieces, side, k, j); }
  }

  /** The line just past a hunk's part is in no part. */
  lemma {:induction false} PastIsOutside(pieces: seq<Piece>, side: Side, j: nat, k: nat)
    requires Separated(pieces) && j < |pieces| && k < |pieces|
    ensures !Inside(pieces, side, j, Base(pieces, side, k) + LinesOf(pieces[k].ops, side))
  {
    if j < k { BasesApart(pieces, side, j, k); }
    if k < j { BasesApart(pieces, side, k, j); }
  }

  /** A hunk that shows a change, or whose header is exact, commits no line outside its own part. */
  lemma {:induction false} CommitsInside(h: Hunk, ops: seq<Op>, side: Side, base: nat, line: nat)
    requires Describes(h, ops, side, base) && (AnyVisible(ops) || ExactHere(ops, side)) && Commits(h, side, line)
    ensures base <= line < base + LinesOf(ops, side)
  {
    if AnyVisible(ops) {
      SeenIsVisible(ops, h.body);
      CollectedAre(h.Start(side), ops, h.body, side, line);
      var i :| CollectsAt(ops, side, AtLeastOne(h.Start(side)), i, line);
      MovedGrows(ops, side, i, |ops|);
      assert ops[..|ops|] == ops;
      MovedAtMost(ops, side);
    } else {
      HunkExactIff(h, ops, side, base);
      TrulyInside(ops, side, base, line);
    }
  }

  /** A context hunk whose changes are all hidden commits the line just past its part. */
  lemma {:induction false} CommitsPast(h: Hunk, ops: seq<Op>, side: Side, base: nat)
    requires Describes(h, ops, side, base) && !AnyVisible(ops) && !ExactHere(ops, side)
    ensures Commits(h, side, base + LinesOf(ops, side))
  {
    SeenIsVisible(ops, h.body);
    CursorMoves(h.Start(side), ops, h.body, side);
    MovedOnlyKeeps(ops, side);
  }

  lemma {:induction false} OutsideUnchanged(pieces: seq<Piece>, side: Side, j: nat, line: nat)
    requires j < |pieces| && !Inside(pieces, side, j, line)
    ensures !ChangedIn(pieces, side, j, line)
  {
    if ChangedIn(pieces, side, j, line) {
      TrulyInside(pieces[j].ops, side, Base(pieces, side, j), line);
      assert false;
    }
  }

  lemma {:induction false} PastIsUnchanged(pieces: seq<Piece>, side: Side, k: nat)
    requires Separated(pieces) && k < |pieces|
    ensures !ChangedLine(pieces, side, Base(pieces, side, k) + LinesOf(pieces[k].ops, side))
  {
    var line := Base(pieces, side, k) + LinesOf(pieces[k].ops, side);
    if ChangedLine(pieces, side, line) {
      var j :| ChangedIn(pieces, side, j, line);
      PastIsOutside(pieces, side, j, k);
      OutsideUnchanged(pieces, side, j, line);
    }
  }

  lemma {:induction false} OneCommits(hunks: seq<Hunk>, side: Side, k: nat, line: nat)
    requires k < |hunks| && Commits(hunks[k], side, line)
    ensures CommitsAny(hunks, side, line)
  {
    assert hunks[k] in hunks;
  }

  lemma {:induction false} ExtraInFile(hunks: seq<Hunk>, pieces: seq<Piece>, side: Side, k: nat, base: nat)
    returns (line: nat)
    requires Separated(pieces) && k < |pieces| == |hunks| && base == Base(pieces, side, k)
    requires Describes(hunks[k], pieces[k].ops, side, base)
    requires !AnyVisible(pieces[k].ops) && !ExactHere(pieces[k].ops, side)
    ensures CommitsAny(hunks, side, line) && !ChangedLine(pieces, side, line)
  {
    line := base + LinesOf(pieces[k].ops, side);
    PastIsUnchanged(pieces, side, k);
    CommitsPast(hunks[k], pieces[k].ops, side, base);
    OneCommits(hunks, side, k, line);
  }

  lemma {:induction false} LostInFile(hunks: seq<Hunk>, pieces: seq<Piece>, side: Side, k: nat) returns (line: nat)
    requires DescribesFile(hunks, pieces, side)
    requires forall p :: p in pieces ==> AnyVisible(p.ops) || ExactHere(p.ops, side)
    requires k < |pieces| && !ExactHere(pieces[k].ops, side)
    ensures ChangedLine(pieces, side, line) && !CommitsAny(hunks, side, line)
  {
    var ops, base := pieces[k].ops, Base(pieces, side, k);
    assert pieces[k] in pieces;
    var op :| op in ops && Changed(op, side) && Hidden(op);
    var i :| 0 <= i < |ops| && ops[i] == op;
    line := HiddenLoses(hunks[k], ops, side, base, i);
    assert ChangedIn(pieces, side, k, line);
    TrulyInside(ops, side, base, line);
    forall j | 0 <= j < |hunks| ensures !Commits(hunks[j], side, line) {
      if Commits(hunks[j], side, line) {
        assert pieces[j] in pieces;
        CommitsInside(hunks[j], pieces[j].ops, side, Base(pieces, side, j), line);
        PartsDisjoint(pieces, side, j, k, line);
        assert false;
      }
    }
  }

  /** The condition is also necessary: one hunk that hides a change anywhere makes the ranges differ from the
      changed lines, by a line lost or by an unchanged line taken for a changed one. */
  lemma {:induction false} FileExactIff(ranges: seq<LineRange>, hunks: seq<Hunk>, pieces: seq<Piece>, side: Side)
    requires DescribesFile(hunks, pieces, side) && Separated(pieces)
    requires Canonical(ranges) && Accumulated(ranges, hunks, side)
    ensures (forall line: nat :: Covers(ranges, line) <==> ChangedLine(pieces, side, line))
      <==> (forall p :: p in pieces ==> ExactHere(p.ops, side))
  {
    if forall p :: p in pieces ==> ExactHere(p.ops, side) {
      FileRangesAreChangedLines(ranges, hunks, pieces, side, ranges);
    } else if k: nat :| k < |pieces| && !AnyVisible(pieces[k].ops) && !ExactHere(pieces[k].ops, side) {
      var line := ExtraInFile(hunks, pieces, side, k, Base(pieces, side, k));
    } else {
      var p :| p in pieces && !ExactHere(p.ops, side);
      var k :| 0 <= k < |pieces| && pieces[k] == p;
      var line := LostInFile(hunks, pieces, side, k);
    }
  }

  /** Separation matters: with nothing between two hunks, what the first takes too much can be a change of the
      second, and the ranges come out right although a change is hidden. */
  lemma {:induction false} AdjacentHunksCanCancel()
    ensures var hunks := [Hunk(1, 1, 1, 2, [" a", "+++b"]), Hunk(1, 0, 3, 1, ["+c"])];
      var pieces := [Piece(0, [Keep("a"), Add("++b")]), Piece(0, [Add("c")])];
      && DescribesFile(hunks, pieces, New) && !ExactHere(pieces[0].ops, New)
      && forall line: nat :: CommitsAny(hunks, New, line) <==> ChangedLine(pieces, New, line)
  {
    var one, two := Hunk(1, 1, 1, 2, [" a", "+++b"]), Hunk(1, 0, 3, 1, ["+c"]);
    var hunks := [one, two];
    var first, second := [Keep("a"), Add("++b")], [Add("c")];
    var pieces := [Piece(0, first), Piece(0, second)];
    CancelFirst(one, first);
    CancelSecond(two, second);
    forall line: nat ensures CommitsAny(hunks, New, line) <==> ChangedLine(pieces, New, line) {
      EitherCommits(one, two, New, line);
      EitherChanges(Piece(0, first), Piece(0, second), New, line);
    }
  }

  lemma {:induction false} EitherCommits(one: Hunk, two: Hunk, side: Side, line: nat)
    ensures CommitsAny([one, two], side, line) <==> Commits(one, side, line) || Commits(two, side, line)
  {
    assert one in [one, two] && two in [one, two];
  }

  lemma {:induction false} EitherChanges(one: Piece, two: Piece, side: Side, line: nat)
    ensures var base := 1 + one.skipped;
      ChangedLine([one, two], side, line) <==>
      Truly(one.ops, side, base, line) || Truly(two.ops, side, base + LinesOf(one.ops, side) + two.skipped, line)
  {
    var pieces := [one, two];
    if Truly(one.ops, side, Base(pieces, side, 0), line) { assert ChangedIn(pieces, side, 0, line); }
    if Truly(two.ops, side, Base(pieces, side, 1), line) { assert ChangedIn(pieces, side, 1, line); }
  }

  lemma {:induction false} CancelFirst(h: Hunk, ops: seq<Op>)
    requires h == Hunk(1, 1, 1, 2, [" a", "+++b"]) && ops == [Keep("a"), Add("++b")]
    ensures Describes(h, ops, New, 1) && LinesOf(ops, New) == 2 && !ExactHere(ops, New)
    ensures forall line: nat :: (Commits(h, New, line) <==> 2 <= line <= 3) && (Truly(ops, New, 1, line) <==> line == 2)
  {
    assert ops[..1] == [Keep("a")] && ops[..1][..0] == [];
    assert " " + "a" == " a" && "+" + "++b" == "+++b" && "++b"[..2] == "++";
    assert ops[0] in ops;
    SeenIsVisible(ops, h.body);
    CursorMoves(1, ops, h.body, New);
    assert Moved(ops[..1], New) == 1 && Moved(ops, New) == 1;
    assert LinesOf(ops[..1], New) == 1;
    forall line: nat ensures Truly(ops, New, 1, line) <==> line == 2 {
      assert ChangesAt(ops, New, 1, 1, 2);
      assert !Changed(ops[0], New);
    }
  }

  lemma {:induction false} CancelSecond(h: Hunk, ops: seq<Op>)
    requires h == Hunk(1, 0, 3, 1, ["+c"]) && ops == [Add("c")]
    ensures Describes(h, ops, New, 3) && LinesOf(ops, New) == 1
    ensures forall line: nat :: (Commits(h, New, line) <==> line == 3) && (Truly(ops, New, 3, line) <==> line == 3)
  {
    assert ops[..0] == [] && "+" + "c" == "+c";
    assert ops[0] in ops && Visible(ops[0]);
    forall line: nat ensures (Commits(h, New, line) <==> line == 3) && (Truly(ops, New, 3, line) <==> line == 3) {
      VisibleExact(h, ops, New, 3, line);
      assert ChangesAt(ops, New, 3, 0, 3);
      if Truly(ops, New, 3, line) { TrulyInside(ops, New, 3, line); }
    }
  }
}

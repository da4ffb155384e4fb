/** What the parser makes of the text of a hunk. It reads the pieces of a line that has a break inside as lines of
    their own; this is exactly when the collected lines are still the changed ones. */
module DiffText {
  import opened Models
  import opened Ranges
  import opened Hunks
  import opened DiffMeaning
  import opened LineBreaks
  import Sorting

  // ---- the lines the parser sees -----------------------------------------

  /** The beginning of an edit's line, or a further piece of it. */
  datatype Seen = Edit(op: Op) | Fragment

  /** The line is taken for what the edit is. */
  ghost predicate Fits(op: Op, line: string) {
    && (forall side: Side :: Counted(line, side) <==> Changed(op, side) && !Hidden(op))
    && (IsAdded(line) || IsRemoved(line) <==> Visible(op))
    && (!IsAdded(line) && !IsRemoved(line) ==> (IsContext(line) <==> op.Keep?))
  }

  ghost predicate Labels(seen: seq<Seen>, lines: seq<string>) {
    && |seen| == |lines|
    && forall i :: 0 <= i < |seen| && seen[i].Edit? ==> Fits(seen[i].op, lines[i])
  }

  function Width(line: Seen, side: Side): nat { if line.Edit? && OnSide(line.op, side) then 1 else 0 }

  /** Lines of the side's file. */
  function SideLines(seen: seq<Seen>, side: Side): nat {
    if seen == [] then 0
    else
      var last := seen[|seen| - 1];
      SideLines(seen[..|seen| - 1], side) + Width(last, side)
  }

  /** What one line adds to the side's changed lines. */
  function Mark(line: Seen, side: Side, at: nat): seq<nat> {
    if line.Edit? && Changed(line.op, side) then [at] else []
  }

  /** The side's changed lines, in order. */
  function TrueLines(seen: seq<Seen>, side: Side, base: nat): seq<nat> {
    if seen == [] then []
    else
      var rest, last := seen[..|seen| - 1], seen[|seen| - 1];
      TrueLines(rest, side, base) + Mark(last, side, base + SideLines(rest, side))
  }

  /** Changes of the side that the parser passes over. */
  function HiddenCount(seen: seq<Seen>, side: Side): nat {
    if seen == [] then 0
    else
      var last := seen[|seen| - 1];
      HiddenCount(seen[..|seen| - 1], side) + if last.Edit? && Changed(last.op, side) && Hidden(last.op) then 1 else 0
  }

  /** Pieces that the parser takes for changes of the side. */
  function StrayCount(seen: seq<Seen>, lines: seq<string>, side: Side): nat
    requires |seen| == |lines|
  {
    if seen == [] then 0
    else
      var n := |seen| - 1;
      StrayCount(seen[..n], lines[..n], side) + if seen[n].Fragment? && Counted(lines[n], side) then 1 else 0
  }

  /** Pieces that the parser takes for context: each moves both cursors one line too far. */
  function ShiftCount(seen: seq<Seen>, lines: seq<string>): nat
    requires |seen| == |lines|
  {
    if seen == [] then 0
    else
      var n := |seen| - 1;
      ShiftCount(seen[..n], lines[..n]) + if seen[n].Fragment? && IsContext(lines[n]) then 1 else 0
  }

  /** No change of the side comes after such a piece. */
  predicate ShiftFree(seen: seq<Seen>, lines: seq<string>, side: Side)
    requires |seen| == |lines|
  {
    seen == [] ||
    var n := |seen| - 1;
    && ShiftFree(seen[..n], lines[..n], side)
    && (seen[n].Edit? && Changed(seen[n].op, side) ==> ShiftCount(seen[..n], lines[..n]) == 0)
  }

  lemma {:induction false} ContextIsNoChange(line: string)
    requires IsContext(line)
    ensures !IsAdded(line) && !IsRemoved(line)
  {
    FirstCharacter(line, '+');
    FirstCharacter(line, '-');
    FirstCharacter(line, ' ');
    FirstCharacter(line, '\t');
  }

  lemma {:induction false} LabelsPrefix(seen: seq<Seen>, lines: seq<string>)
    requires Labels(seen, lines) && seen != []
    ensures Labels(seen[..|seen| - 1], lines[..|seen| - 1])
  {
  }

  /** Each hidden change is one line collected too few, each stray piece one too many. */
  lemma {:induction false} CountsBalance(start: nat, seen: seq<Seen>, lines: seq<string>, side: Side, base: nat)
    requires Labels(seen, lines)
    ensures |Collected(start, lines, side)| + HiddenCount(seen, side) ==
      |TrueLines(seen, side, base)| + StrayCount(seen, lines, side)
  {
    if seen != [] {
      LabelsPrefix(seen, lines);
      CountsBalance(start, seen[..|seen| - 1], lines[..|seen| - 1], side, base);
    }
  }

  /** With no hidden and no stray change the cursor is off by the pieces taken for context. */
  lemma {:induction false} CursorIsShifted(start: nat, seen: seq<Seen>, lines: seq<string>, side: Side)
    requires Labels(seen, lines) && HiddenCount(seen, side) == 0 && StrayCount(seen, lines, side) == 0
    ensures Cursor(start, lines, side) == AtLeastOne(start) + SideLines(seen, side) + ShiftCount(seen, lines)
  {
    if seen != [] {
      var n := |seen| - 1;
      LabelsPrefix(seen, lines);
      CursorIsShifted(start, seen[..n], lines[..n], side);
      if IsContext(lines[n]) { ContextIsNoChange(lines[n]); }
      if seen[n].Edit? { assert Fits(seen[n].op, lines[n]); }
    }
  }

  lemma {:induction false} LastPairs(a: seq<nat>, x: nat, b: seq<nat>, y: nat)
    requires |a| == |b|
    ensures a + [x] == b + [y] <==> a == b && x == y
  {
    if a + [x] == b + [y] {
      assert a == (a + [x])[..|a|] && b == (b + [y])[..|b|];
      assert (a + [x])[|a|] == x && (b + [y])[|b|] == y;
    }
  }

  lemma {:induction false} CollectedStep(start: nat, lines: seq<string>, side: Side, n: nat)
    requires |lines| == n + 1
    ensures Collected(start, lines, side) ==
      if Counted(lines[n], side) then Collected(start, lines[..n], side) + [Cursor(start, lines[..n], side)]
      else Collected(start, lines[..n], side)
  {
  }

  lemma {:induction false} TrueStep(seen: seq<Seen>, side: Side, base: nat, n: nat)
    requires |seen| == n + 1
    ensures TrueLines(seen, side, base) ==
      TrueLines(seen[..n], side, base) + Mark(seen[n], side, base + SideLines(seen[..n], side))
  {
  }

  lemma {:induction false} MatchIff(start: nat, seen: seq<Seen>, lines: seq<string>, side: Side)
    requires Labels(seen, lines) && HiddenCount(seen, side) == 0 && StrayCount(seen, lines, side) == 0
    ensures Collected(start, lines, side) == TrueLines(seen, side, AtLeastOne(start)) <==> ShiftFree(seen, lines, side)
  {
    if seen != [] {
      var n, base := |seen| - 1, AtLeastOne(start);
      var rest, before := seen[..n], lines[..n];
      LabelsPrefix(seen, lines);
      MatchIff(start, rest, before, side);
      CountsBalance(start, rest, before, side, base);
      CursorIsShifted(start, rest, before, side);
      LastPairs(Collected(start, before, side), Cursor(start, before, side), TrueLines(rest, side, base),
                base + SideLines(rest, side));
      CollectedStep(start, lines, side, n);
      TrueStep(seen, side, base, n);
      if seen[n].Edit? { assert Fits(seen[n].op, lines[n]); }
    }
  }

  // ---- both lists ascend -------------------------------------------------

  ghost predicate Ascends(s: seq<nat>) {
    forall i, j :: 0 <= i < j < |s| ==> s[i] < s[j]
  }

  ghost predicate AllBelow(s: seq<nat>, bound: nat) {
    forall i :: 0 <= i < |s| ==> s[i] < bound
  }

  lemma {:induction false} CollectedAscends(start: nat, lines: seq<string>, side: Side)
    ensures Ascends(Collected(start, lines, side)) &&
      AllBelow(Collected(start, lines, side), Cursor(start, lines, side))
  {
    if lines != [] { CollectedAscends(start, lines[..|lines| - 1], side); }
  }

  lemma {:induction false} TrueAscends(seen: seq<Seen>, side: Side, base: nat)
    ensures Ascends(TrueLines(seen, side, base)) && AllBelow(TrueLines(seen, side, base), base + SideLines(seen, side))
  {
    if seen != [] { TrueAscends(seen[..|seen| - 1], side, base); }
  }

  ghost predicate SameMembers(a: seq<nat>, b: seq<nat>) {
    forall x: nat :: x in a <==> x in b
  }

  lemma {:induction false} AscendingUnique(a: seq<nat>, b: seq<nat>)
    requires Ascends(a) && Ascends(b)
    ensures SameMembers(a, b) <==> a == b
  {
    if SameMembers(a, b) {
      Sorting.ArrangedUnique(a, b, AtMost);
    }
  }

  // ---- a hunk that shows a change ----------------------------------------

  /** Nothing hidden, nothing counted that is no change, and no change after a piece taken for context. */
  predicate Faithful(seen: seq<Seen>, lines: seq<string>, side: Side)
    requires |seen| == |lines|
  {
    HiddenCount(seen, side) == 0 && StrayCount(seen, lines, side) == 0 && ShiftFree(seen, lines, side)
  }

  /** A change passed over and a piece counted in its stead. */
  predicate Cancels(seen: seq<Seen>, lines: seq<string>, side: Side)
    requires |seen| == |lines|
  {
    HiddenCount(seen, side) > 0 && StrayCount(seen, lines, side) > 0
  }

  lemma {:induction false} NothingOnSide(seen: seq<Seen>, lines: seq<string>, side: Side, base: nat)
    requires |seen| == |lines| && SideLines(seen, side) == 0
    ensures TrueLines(seen, side, base) == [] && HiddenCount(seen, side) == 0 && ShiftFree(seen, lines, side)
  {
    if seen != [] { NothingOnSide(seen[..|seen| - 1], lines[..|seen| - 1], side, base); }
  }

  /** Unless a hidden change and a stray piece make up for each other, the lines collected are the changed ones
      exactly when the hunk is faithful. */
  lemma {:induction false} CollectedIff(start: nat, seen: seq<Seen>, lines: seq<string>, side: Side, base: nat)
    requires Labels(seen, lines) && !Cancels(seen, lines, side)
    requires SideLines(seen, side) == 0 || base == AtLeastOne(start)
    ensures SameMembers(Collected(start, lines, side), TrueLines(seen, side, base)) <==> Faithful(seen, lines, side)
  {
    CollectedAscends(start, lines, side);
    TrueAscends(seen, side, base);
    AscendingUnique(Collected(start, lines, side), TrueLines(seen, side, base));
    CountsBalance(start, seen, lines, side, base);
    if SideLines(seen, side) == 0 {
      NothingOnSide(seen, lines, side, base);
    } else if HiddenCount(seen, side) == 0 && StrayCount(seen, lines, side) == 0 {
      MatchIff(start, seen, lines, side);
    }
  }

  // ---- a hunk that shows none --------------------------------------------

  function ContextCount(lines: seq<string>): nat {
    if lines == [] then 0
    else ContextCount(lines[..|lines| - 1]) + if IsContext(lines[|lines| - 1]) then 1 else 0
  }

  lemma {:induction false} CursorOverContext(start: nat, lines: seq<string>, side: Side)
    requires !SeenBody(lines)
    ensures Cursor(start, lines, side) == AtLeastOne(start) + ContextCount(lines)
  {
    if lines != [] {
      var n := |lines| - 1;
      assert lines[n] in lines && forall line :: line in lines[..n] ==> line in lines;
      CursorOverContext(start, lines[..n], side);
    }
  }

  /** Without context every line of the side is a changed one. */
  lemma {:induction false} AllTrue(seen: seq<Seen>, lines: seq<string>, side: Side, base: nat)
    requires Labels(seen, lines) && !SeenBody(lines) && ContextCount(lines) == 0
    ensures forall line: nat :: line in TrueLines(seen, side, base) <==> base <= line < base + SideLines(seen, side)
  {
    if seen != [] {
      var n := |seen| - 1;
      assert lines[n] in lines && forall line :: line in lines[..n] ==> line in lines;
      LabelsPrefix(seen, lines);
      AllTrue(seen[..n], lines[..n], side, base);
      if seen[n].Edit? { assert Fits(seen[n].op, lines[n]); }
    }
  }

  /** The header's count from the cursor on gives the changed lines exactly when there are none, or no context. */
  lemma {:induction false} HeaderIff(h: Hunk, seen: seq<Seen>, side: Side, base: nat)
    requires Labels(seen, h.body) && !SeenBody(h.body)
    requires h.Count(side) == SideLines(seen, side) && (h.Count(side) == 0 || (base > 0 && base == h.Start(side)))
    ensures (forall line: nat :: Commits(h, side, line) <==> line in TrueLines(seen, side, base)) <==>
      h.Count(side) == 0 || ContextCount(h.body) == 0
  {
    CursorOverContext(h.Start(side), h.body, side);
    TrueAscends(seen, side, base);
    if h.Count(side) == 0 {
      NothingOnSide(seen, h.body, side, base);
    } else if ContextCount(h.body) == 0 {
      AllTrue(seen, h.body, side, base);
    } else {
      var beyond := Cursor(h.Start(side), h.body, side) + h.Count(side) - 1;
      assert Commits(h, side, beyond);
    }
  }

  // ---- from the text -----------------------------------------------------

  /** The edit as a diff writes it; a blank context line may have lost its mark. */
  predicate Writes(op: Op, line: string) {
    match op
    case Keep(text) => line == " " + text || (line == "" && text == "")
    case Add(text) => line == "+" + text
    case Remove(text) => line == "-" + text
    case NoEol => StartsWith(line, "\\")
  }

  ghost predicate WritesAll(ops: seq<Op>, raw: seq<string>) {
    && |ops| == |raw|
    && forall i :: 0 <= i < |ops| ==> Writes(ops[i], raw[i]) && OneLine(raw[i])
  }

  function Pieces(n: nat): (r: seq<Seen>)
    ensures |r| == n && forall i :: 0 <= i < n ==> r[i].Fragment?
  {
    seq(n, _ => Fragment)
  }

  /** One edit and the pieces its line is broken into. */
  function SeenAs(op: Op, line: string): seq<Seen> {
    [Edit(op)] + if Fragments(line) == [] then [] else Pieces(|Fragments(line)| - 1)
  }

  function SeenOf(ops: seq<Op>, raw: seq<string>): seq<Seen>
    requires |ops| == |raw|
  {
    if ops == [] then [] else SeenAs(ops[0], raw[0]) + SeenOf(ops[1..], raw[1..])
  }

  /** The marked beginning of a line shows what the whole line shows. */
  lemma {:induction false} BeginningFits(mark: char, text: string, first: string, op: Op, begun: Op)
    requires !IsBreak(mark) && first == ([mark] + text)[..LineEnd([mark] + text)]
    requires (op == Add(text) && mark == '+') || (op == Remove(text) && mark == '-') ||
      (op == Keep(text) && mark == ' ')
    requires begun == op.(text := text[..LineEnd(text)])
    ensures first == [mark] + text[..LineEnd(text)] && Fits(op, first)
  {
    var line := [mark] + text;
    assert line[1..] == text && LineEnd(line) == 1 + LineEnd(text);
    assert first == [mark] + text[..LineEnd(text)];
    LineEndIs(text);
    PrefixShows(text, LineEnd(text));
    RenderedLine(begun, first, New);
    RenderedLine(begun, first, Old);
    forall side: Side ensures Counted(first, side) <==> Changed(op, side) && !Hidden(op) {
      RenderedLine(begun, first, side);
    }
  }

  /** Cutting at the first break keeps a doubled mark. */
  lemma {:induction false} PrefixShows(text: string, n: nat)
    requires n <= |text| && (n < |text| ==> IsBreak(text[n]))
    ensures StartsWith(text[..n], "++") <==> StartsWith(text, "++")
    ensures StartsWith(text[..n], "--") <==> StartsWith(text, "--")
  {
    if n >= 2 {
      assert text[..n][..2] == text[..2];
    } else if |text| >= 2 {
      assert text[n] == text[..2][n];
    }
  }

  lemma {:induction false} FirstFits(op: Op, line: string)
    requires Writes(op, line) && OneLine(line)
    ensures |Fragments(line)| >= 1 && Fits(op, Fragments(line)[0])
  {
    FragmentsAre(line);
    var first := Fragments(line)[0];
    match op
    case Keep(text) =>
      if line == "" {
        BlankFits(op, first);
      } else {
        BeginningFits(' ', text, first, op, Keep(text[..LineEnd(text)]));
      }
    case Add(text) => BeginningFits('+', text, first, op, Add(text[..LineEnd(text)]));
    case Remove(text) => BeginningFits('-', text, first, op, Remove(text[..LineEnd(text)]));
    case NoEol => MarkerFits(line, first);
  }

  lemma {:induction false} BlankFits(op: Op, first: string)
    requires op.Keep? && first == ""
    ensures Fits(op, first)
  {
    RenderedLine(Keep(""), first, New);
    RenderedLine(Keep(""), first, Old);
    forall side: Side ensures !Counted(first, side) { RenderedLine(Keep(""), first, side); }
  }

  lemma {:induction false} MarkerFits(line: string, first: string)
    requires StartsWith(line, "\\") && first == line[..LineEnd(line)]
    ensures Fits(NoEol, first)
  {
    FirstCharacter(line, '\\');
    assert first != "" && first[0] == '\\';
    FirstCharacter(first, '\\');
    RenderedLine(NoEol, first, New);
    RenderedLine(NoEol, first, Old);
    forall side: Side ensures !Counted(first, side) { RenderedLine(NoEol, first, side); }
  }

  lemma {:induction false} SeenFits(op: Op, line: string)
    requires Writes(op, line) && OneLine(line)
    ensures Labels(SeenAs(op, line), Fragments(line))
  {
    FirstFits(op, line);
  }

  lemma {:induction false} LabelsJoin(a: seq<Seen>, b: seq<Seen>, x: seq<string>, y: seq<string>)
    requires Labels(a, x) && Labels(b, y)
    ensures Labels(a + b, x + y)
  {
  }

  lemma {:induction false} SeenLabels(ops: seq<Op>, raw: seq<string>)
    requires WritesAll(ops, raw)
    ensures Labels(SeenOf(ops, raw), FragmentsOf(raw))
  {
    if ops != [] {
      SeenFits(ops[0], raw[0]);
      SeenLabels(ops[1..], raw[1..]);
      LabelsJoin(SeenAs(ops[0], raw[0]), SeenOf(ops[1..], raw[1..]), Fragments(raw[0]), FragmentsOf(raw[1..]));
    }
  }

  // ---- the pieces are no lines of the file -------------------------------

  lemma {:induction false} SideFront(seen: seq<Seen>, side: Side)
    requires seen != []
    ensures SideLines(seen, side) == Width(seen[0], side) + SideLines(seen[1..], side)
  {
    if |seen| > 1 {
      var n := |seen| - 1;
      SideFront(seen[..n], side);
      assert seen[..n][1..] == seen[1..][..n - 1] && seen[1..][n - 1] == seen[n];
    }
  }

  lemma {:induction false} TrueFront(seen: seq<Seen>, side: Side, base: nat, line: nat)
    requires seen != []
    ensures line in TrueLines(seen, side, base) <==>
      line in Mark(seen[0], side, base) || line in TrueLines(seen[1..], side, base + Width(seen[0], side))
  {
    if |seen| > 1 {
      var n := |seen| - 1;
      TrueFront(seen[..n], side, base, line);
      SideFront(seen[..n], side);
      assert seen[..n][1..] == seen[1..][..n - 1] && seen[1..][n - 1] == seen[n];
    }
  }

  lemma {:induction false} PiecesAreNoLines(seen: seq<Seen>, n: nat, side: Side, base: nat, line: nat)
    requires n <= |seen| && forall i :: 0 <= i < n ==> seen[i].Fragment?
    ensures SideLines(seen, side) == SideLines(seen[n..], side)
    ensures line in TrueLines(seen, side, base) <==> line in TrueLines(seen[n..], side, base)
    decreases n
  {
    if n == 0 {
      assert seen[0..] == seen;
    } else {
      PiecesAreNoLines(seen[1..], n - 1, side, base, line);
      assert seen[1..][n - 1..] == seen[n..];
      SideFront(seen, side);
      TrueFront(seen, side, base, line);
    }
  }

  lemma {:induction false} EditThenPieces(seen: seq<Seen>, rest: seq<Seen>, side: Side, base: nat, line: nat)
    requires |rest| < |seen| && rest == seen[|seen| - |rest|..] && seen[0].Edit?
    requires forall i :: 1 <= i < |seen| - |rest| ==> seen[i].Fragment?
    ensures SideLines(seen, side) == Width(seen[0], side) + SideLines(rest, side)
    ensures line in TrueLines(seen, side, base) <==>
      line in Mark(seen[0], side, base) || line in TrueLines(rest, side, base + Width(seen[0], side))
  {
    var after, n := seen[1..], |seen| - |rest| - 1;
    assert after[n..] == rest;
    SideFront(seen, side);
    TrueFront(seen, side, base, line);
    PiecesAreNoLines(after, n, side, base + Width(seen[0], side), line);
  }

  lemma {:induction false} SeenFront(ops: seq<Op>, raw: seq<string>, side: Side, base: nat, line: nat)
    requires |ops| == |raw| && ops != []
    ensures SideLines(SeenOf(ops, raw), side) ==
      (if OnSide(ops[0], side) then 1 else 0) + SideLines(SeenOf(ops[1..], raw[1..]), side)
    ensures line in TrueLines(SeenOf(ops, raw), side, base) <==>
      (Changed(ops[0], side) && line == base)
      || line in TrueLines(SeenOf(ops[1..], raw[1..]), side, base + if OnSide(ops[0], side) then 1 else 0)
  {
    EditThenPieces(SeenOf(ops, raw), SeenOf(ops[1..], raw[1..]), side, base, line);
  }

  lemma {:induction false} LinesOfFront(ops: seq<Op>, side: Side)
    requires ops != []
    ensures LinesOf(ops, side) == (if OnSide(ops[0], side) then 1 else 0) + LinesOf(ops[1..], side)
  {
    if |ops| > 1 {
      var n := |ops| - 1;
      LinesOfFront(ops[..n], side);
      assert ops[..n][1..] == ops[1..][..n - 1] && ops[1..][n - 1] == ops[n];
    }
  }

  lemma {:induction false} TrulyFront(ops: seq<Op>, side: Side, base: nat, line: nat)
    requires ops != []
    ensures Truly(ops, side, base, line) <==>
      (Changed(ops[0], side) && line == base)
      || Truly(ops[1..], side, base + if OnSide(ops[0], side) then 1 else 0, line)
  {
    var rest, next := ops[1..], base + if OnSide(ops[0], side) then 1 else 0;
    assert ops[..0] == [];
    if Changed(ops[0], side) && line == base { assert ChangesAt(ops, side, base, 0, line); }
    if Truly(rest, side, next, line) {
      var i :| ChangesAt(rest, side, next, i, line);
      FrontShift(ops, side, i);
      assert ChangesAt(ops, side, base, i + 1, line);
    }
    if Truly(ops, side, base, line) {
      var i :| ChangesAt(ops, side, base, i, line);
      if i > 0 {
        FrontShift(ops, side, i - 1);
        assert ChangesAt(rest, side, next, i - 1, line);
      }
    }
  }

  lemma {:induction false} FrontShift(ops: seq<Op>, side: Side, i: nat)
    requires i < |ops| - 1
    ensures ops[i + 1] == ops[1..][i]
    ensures LinesOf(ops[..i + 1], side) == (if OnSide(ops[0], side) then 1 else 0) + LinesOf(ops[1..][..i], side)
  {
    LinesOfFront(ops[..i + 1], side);
    assert ops[..i + 1][1..] == ops[1..][..i];
  }

  lemma {:induction false} SeenSideLines(ops: seq<Op>, raw: seq<string>, side: Side)
    requires |ops| == |raw|
    ensures SideLines(SeenOf(ops, raw), side) == LinesOf(ops, side)
    decreases |ops|
  {
    if ops != [] {
      SeenSideLines(ops[1..], raw[1..], side);
      SeenFront(ops, raw, side, 0, 0);
      LinesOfFront(ops, side);
    }
  }

  /** The changed lines are those of the edits, however their lines are broken. */
  lemma {:induction false} SeenTrue(ops: seq<Op>, raw: seq<string>, side: Side, base: nat, line: nat)
    requires |ops| == |raw|
    ensures line in TrueLines(SeenOf(ops, raw), side, base) <==> Truly(ops, side, base, line)
    decreases |ops|
  {
    if ops != [] {
      SeenFront(ops, raw, side, base, line);
      SeenTrue(ops[1..], raw[1..], side, base + if OnSide(ops[0], side) then 1 else 0, line);
      TrulyFront(ops, side, base, line);
    }
  }

  // ---- one hunk ----------------------------------------------------------

  /** The hunk's header is right and its body is what splitting leaves of the written edits. */
  ghost predicate TextHunk(h: Hunk, ops: seq<Op>, raw: seq<string>, side: Side, base: nat) {
    && WritesAll(ops, raw) && h.body == SplitLines(TextOf(raw))
    && base > 0 && h.Count(side) == LinesOf(ops, side)
    && h.Start(side) == if h.Count(side) == 0 then base - 1 else base
  }

  lemma {:induction false} BodyIsSeen(h: Hunk, ops: seq<Op>, raw: seq<string>, side: Side, base: nat)
    requires TextHunk(h, ops, raw, side, base)
    ensures Labels(SeenOf(ops, raw), h.body)
  {
    forall line | line in raw ensures OneLine(line) {
      var i :| 0 <= i < |raw| && raw[i] == line;
    }
    SplitText(raw);
    SeenLabels(ops, raw);
  }

  /** The exact condition for the text of one hunk and one side. */
  predicate ExactText(body: seq<string>, seen: seq<Seen>, side: Side)
    requires |seen| == |body|
  {
    if SeenBody(body) then Faithful(seen, body, side) else SideLines(seen, side) == 0 || ContextCount(body) == 0
  }

  /** Whatever the lines hold, breaks included: unless a hidden change and a stray piece make up for each other, the
      hunk contributes exactly the side's changed lines if and only if the condition holds. */
  lemma {:induction false} TextHunkExactIff(h: Hunk, ops: seq<Op>, raw: seq<string>, side: Side, base: nat)
    requires TextHunk(h, ops, raw, side, base)
    ensures Labels(SeenOf(ops, raw), h.body)
    ensures !Cancels(SeenOf(ops, raw), h.body, side) ==>
      (SameLines(h, ops, side, base) <==> ExactText(h.body, SeenOf(ops, raw), side))
  {
    var seen := SeenOf(ops, raw);
    BodyIsSeen(h, ops, raw, side, base);
    SeenSideLines(ops, raw, side);
    forall line: nat ensures line in TrueLines(seen, side, base) <==> Truly(ops, side, base, line) {
      SeenTrue(ops, raw, side, base, line);
    }
    if !Cancels(seen, h.body, side) {
      if SeenBody(h.body) {
        CollectedIff(h.Start(side), seen, h.body, side, base);
      } else {
        HeaderIff(h, seen, side, base);
      }
    }
  }

  // ---- two additions, one with a break -----------------------------------

  lemma {:induction false} TwoLines(first: string, second: string, one: seq<string>, two: seq<string>)
    requires OneLine(first) && OneLine(second) && Fragments(first) == one && Fragments(second) == two
    ensures SplitLines(TextOf([first, second])) == one + two
  {
    var raw := [first, second];
    assert raw[1..] == [second] && raw[1..][1..] == [];
    SplitText(raw);
    assert FragmentsOf(raw[1..]) == two;
  }

  lemma {:induction false} PlainFragment(line: string)
    requires forall c :: c in line ==> !IsBreak(c)
    ensures OneLine(line) && Fragments(line) == [line]
  {
    OneFragmentIff(line);
    if line != "" { assert line[|line| - 1] in line; }
  }

  lemma {:induction false} FormFeedFragments(before: string, after: string)
    requires forall c :: c in before + after ==> !IsBreak(c)
    ensures OneLine(before + "\U{000c}" + after) && Fragments(before + "\U{000c}" + after) == [before, after]
  {
    var line, n := before + "\U{000c}" + after, |before|;
    assert forall c :: c in line <==> c in before + after || c == '\U{000c}';
    assert forall i :: 0 <= i < n ==> line[i] == before[i] && before[i] in before + after;
    assert line[n] == '\U{000c}' && line[..n] == before && line[n + 1..] == after;
    LineEndIs(line);
    assert LineEnd(line) == n;
    FragmentsAre(line);
    PlainFragment(after);
  }

  lemma {:induction false} FirstTwo(ops: seq<Op>, first: string, second: string)
    requires ops == [Add(first), Add(second)]
    ensures LinesOf(ops, New) == 2
    ensures forall line: nat :: Truly(ops, New, 1, line) <==> 1 <= line <= 2
  {
    assert ops[..1] == [Add(first)] && ops[..1][..0] == [] && ops[..0] == [];
    assert LinesOf(ops[..1], New) == 1 && LinesOf(ops[..0], New) == 0;
    assert ChangesAt(ops, New, 1, 0, 1) && ChangesAt(ops, New, 1, 1, 2);
    forall line: nat | Truly(ops, New, 1, line) ensures 1 <= line <= 2 {
      TrulyInside(ops, New, 1, line);
    }
  }

  lemma {:induction false} TwoEdits(h: Hunk, ops: seq<Op>, raw: seq<string>, x: string, y: string)
    requires ops == [Add(x), Add(y)] && raw == ["+" + x, "+" + y] && OneLine(raw[0]) && OneLine(raw[1])
    requires h.newStart == 1 && h.newCount == 2 && h.body == Fragments(raw[0]) + Fragments(raw[1])
    ensures TextHunk(h, ops, raw, New, 1)
    ensures forall line: nat :: Truly(ops, New, 1, line) <==> 1 <= line <= 2
  {
    TwoLines(raw[0], raw[1], Fragments(raw[0]), Fragments(raw[1]));
    FirstTwo(ops, x, y);
  }

  /** Three lines read from line 1 on, of which the first is counted. */
  lemma {:induction false} ThreeLines(a: string, b: string, c: string)
    requires IsAdded(a)
    ensures var body, second := [a, b, c], if IsAdded(b) then [2] else [];
      && SeenBody(body)
      && Collected(1, body, New) == [1] + second + (if IsAdded(c) then [Cursor(1, [a, b], New)] else [])
      && Cursor(1, [a, b], New) == if IsAdded(b) || (!IsRemoved(b) && IsContext(b)) then 3 else 2
  {
    var body := [a, b, c];
    assert body[0] in body;
    assert body[..2] == [a, b] && [a, b][..1] == [a] && [a][..0] == [];
    assert Collected(1, [a], New) == [1] && Cursor(1, [a], New) == 2;
  }

  lemma {:induction false} MarkedAdded(text: string)
    ensures IsAdded("+" + text) <==> !StartsWith(text, "++")
  {
    FirstCharacter("+" + text, '+');
    FirstThree(text, '+');
  }

  /** A form feed is a line of its own in many C and Python sources. Its change is read as two lines, the second of
      which moves the cursor: lines 1 and 2 were added, lines 1 and 3 are collected. */
  lemma {:induction false} FormFeedShifts()
    ensures var ops, raw := [Add("\U{000c}"), Add("x")], ["+" + "\U{000c}", "+" + "x"];
      var h := Hunk(0, 0, 1, 2, ["+", "", "+" + "x"]);
      && TextHunk(h, ops, raw, New, 1) && ExactHere(ops, New)
      && Collected(1, h.body, New) == [1, 3] && !SameLines(h, ops, New, 1)
  {
    var ops, raw := [Add("\U{000c}"), Add("x")], ["+" + "\U{000c}", "+" + "x"];
    var h := Hunk(0, 0, 1, 2, ["+", "", "+" + "x"]);
    assert "+" + "\U{000c}" + "" == raw[0];
    FormFeedFragments("+", "");
    PlainFragment("+" + "x");
    TwoEdits(h, ops, raw, "\U{000c}", "x");
    assert "+" + "" == "+";
    MarkedAdded("");
    MarkedAdded("x");
    ThreeLines("+", "", "+" + "x");
    assert Commits(h, New, 3);
  }

  /** A change passed over and a piece taken for one: the lines come out right by accident. */
  lemma {:induction false} BreakMakesUpForHidden()
    ensures var ops, raw := [Add("a\U{000c}+b"), Add("++c")], ["+" + "a\U{000c}+b", "+" + "++c"];
      var h := Hunk(0, 0, 1, 2, ["+" + "a", "+" + "b", "+" + "++c"]);
      && TextHunk(h, ops, raw, New, 1) && Hidden(ops[1]) && SameLines(h, ops, New, 1)
  {
    var ops, raw := [Add("a\U{000c}+b"), Add("++c")], ["+" + "a\U{000c}+b", "+" + "++c"];
    var h := Hunk(0, 0, 1, 2, ["+" + "a", "+" + "b", "+" + "++c"]);
    assert ("+" + "a") + "\U{000c}" + ("+" + "b") == raw[0];
    FormFeedFragments("+" + "a", "+" + "b");
    PlainFragment("+" + "++c");
    TwoEdits(h, ops, raw, "a\U{000c}+b", "++c");
    assert "++c"[..2] == "++";
    MarkedAdded("a");
    MarkedAdded("b");
    MarkedAdded("++c");
    ThreeLines("+" + "a", "+" + "b", "+" + "++c");
    assert Collected(1, h.body, New) == [1, 2];
  }

  // ---- a whole file ------------------------------------------------------

  ghost predicate TextFile(hunks: seq<Hunk>, pieces: seq<Piece>, raws: seq<seq<string>>, side: Side) {
    && |hunks| == |pieces| == |raws|
    && forall k :: 0 <= k < |pieces| ==> TextHunk(hunks[k], pieces[k].ops, raws[k], side, Base(pieces, side, k))
  }

  /** The condition of hunk `k`. */
  ghost predicate ExactAt(hunks: seq<Hunk>, pieces: seq<Piece>, raws: seq<seq<string>>, side: Side, k: nat)
    requires TextFile(hunks, pieces, raws, side) && k < |pieces|
  {
    BodyIsSeen(hunks[k], pieces[k].ops, raws[k], side, Base(pieces, side, k));
    ExactText(hunks[k].body, SeenOf(pieces[k].ops, raws[k]), side)
  }

  ghost predicate CancelsAt(hunks: seq<Hunk>, pieces: seq<Piece>, raws: seq<seq<string>>, side: Side, k: nat)
    requires TextFile(hunks, pieces, raws, side) && k < |pieces|
  {
    BodyIsSeen(hunks[k], pieces[k].ops, raws[k], side, Base(pieces, side, k));
    Cancels(SeenOf(pieces[k].ops, raws[k]), hunks[k].body, side)
  }

  lemma {:induction false} UnseenHasNoStray(seen: seq<Seen>, body: seq<string>, side: Side)
    requires |seen| == |body| && !SeenBody(body)
    ensures StrayCount(seen, body, side) == 0
  {
    if seen != [] {
      var n := |seen| - 1;
      assert body[n] in body && forall line :: line in body[..n] ==> line in body;
      UnseenHasNoStray(seen[..n], body[..n], side);
    }
  }

  lemma {:induction false} ExactHunk(hunks: seq<Hunk>, pieces: seq<Piece>, raws: seq<seq<string>>, side: Side, k: nat)
    requires TextFile(hunks, pieces, raws, side) && k < |pieces|
    ensures ExactAt(hunks, pieces, raws, side, k) ==> !CancelsAt(hunks, pieces, raws, side, k)
    ensures !CancelsAt(hunks, pieces, raws, side, k) ==>
      (SameLines(hunks[k], pieces[k].ops, side, Base(pieces, side, k)) <==> ExactAt(hunks, pieces, raws, side, k))
  {
    TextHunkExactIff(hunks[k], pieces[k].ops, raws[k], side, Base(pieces, side, k));
    if !SeenBody(hunks[k].body) { UnseenHasNoStray(SeenOf(pieces[k].ops, raws[k]), hunks[k].body, side); }
  }

  /** Whatever the lines hold, if the condition holds of every hunk then the parsed ranges are the canonical list of
      exactly the changed lines. */
  lemma {:induction false} TextFileRanges(ranges: seq<LineRange>, hunks: seq<Hunk>, pieces: seq<Piece>,
                                          raws: seq<seq<string>>, side: Side, other: seq<LineRange>)
    requires TextFile(hunks, pieces, raws, side)
    requires Canonical(ranges) && Accumulated(ranges, hunks, side)
    requires forall k :: 0 <= k < |pieces| ==> ExactAt(hunks, pieces, raws, side, k)
    ensures forall line: nat :: Covers(ranges, line) <==> ChangedLine(pieces, side, line)
    ensures Canonical(other) && (forall line: nat :: Covers(other, line) <==> ChangedLine(pieces, side, line)) ==>
      other == ranges
  {
    forall line: nat ensures Covers(ranges, line) <==> ChangedLine(pieces, side, line) {
      forall k | 0 <= k < |pieces| ensures Commits(hunks[k], side, line) <==> ChangedIn(pieces, side, k, line) {
        ExactHunk(hunks, pieces, raws, side, k);
      }
      FileLine(hunks, pieces, side, line);
    }
    if Canonical(other) && forall line: nat :: Covers(other, line) <==> ChangedLine(pieces, side, line) {
      CanonicalUnique(other, ranges);
    }
  }

  /** No hunk commits a line that another one changed. */
  ghost predicate Apart(hunks: seq<Hunk>, pieces: seq<Piece>, side: Side)
    requires |hunks| == |pieces|
  {
    forall j, k, line: nat ::
      0 <= j < |hunks| && Commits(hunks[j], side, line) && ChangedIn(pieces, side, k, line) ==> j == k
  }

  lemma {:induction false} HunkDiffers(hunks: seq<Hunk>, pieces: seq<Piece>, side: Side, k: nat, line: nat)
    requires |hunks| == |pieces| && k < |pieces| && Apart(hunks, pieces, side)
    requires !(Commits(hunks[k], side, line) <==> ChangedIn(pieces, side, k, line))
    ensures !(CommitsAny(hunks, side, line) <==> ChangedLine(pieces, side, line))
  {
    if Commits(hunks[k], side, line) {
      assert hunks[k] in hunks && CommitsAny(hunks, side, line);
    } else {
      assert ChangedLine(pieces, side, line);
    }
  }

  /** The condition is necessary too, as long as no hunk takes a line that another one changed, and in no hunk a piece
      makes up for a hidden change. */
  lemma {:induction false} TextFileExactIff(ranges: seq<LineRange>, hunks: seq<Hunk>, pieces: seq<Piece>,
                                            raws: seq<seq<string>>, side: Side)
    requires TextFile(hunks, pieces, raws, side) && Apart(hunks, pieces, side)
    requires Canonical(ranges) && Accumulated(ranges, hunks, side)
    requires forall k :: 0 <= k < |pieces| ==> !CancelsAt(hunks, pieces, raws, side, k)
    ensures (forall line: nat :: Covers(ranges, line) <==> ChangedLine(pieces, side, line))
      <==> (forall k :: 0 <= k < |pieces| ==> ExactAt(hunks, pieces, raws, side, k))
  {
    if forall k :: 0 <= k < |pieces| ==> ExactAt(hunks, pieces, raws, side, k) {
      TextFileRanges(ranges, hunks, pieces, raws, side, ranges);
    } else {
      var k :| 0 <= k < |pieces| && !ExactAt(hunks, pieces, raws, side, k);
      ExactHunk(hunks, pieces, raws, side, k);
      var line: nat :| !(Commits(hunks[k], side, line) <==> Truly(pieces[k].ops, side, Base(pieces, side, k), line));
      HunkDiffers(hunks, pieces, side, k, line);
    }
  }

  // ---- no line is broken -------------------------------------------------

  lemma {:induction false} WrittenRenders(op: Op, line: string)
    requires Writes(op, line)
    ensures Renders(op, DropReturn(line))
  {
    if DropReturn(line) != line { assert DropReturn(line) + "\r" == line; }
    if op.NoEol? {
      FirstCharacter(line, '\\');
      FirstCharacter(DropReturn(line), '\\');
    }
  }

  lemma {:induction false} DropReturnsAt(raw: seq<string>, i: nat)
    requires i < |raw|
    ensures DropReturns(raw)[i] == DropReturn(raw[i])
  {
    if i > 0 { DropReturnsAt(raw[1..], i - 1); }
  }

  /** Written lines without a break inside are read as rendered edits, one each. */
  lemma {:induction false} UnbrokenDescribes(h: Hunk, ops: seq<Op>, raw: seq<string>, side: Side, base: nat)
    requires TextHunk(h, ops, raw, side, base) && AllUnbroken(raw)
    ensures Describes(h, ops, side, base)
  {
    forall line | line in raw ensures OneLine(line) {
      var i :| 0 <= i < |raw| && raw[i] == line;
    }
    OneLineEachIff(raw);
    forall i | 0 <= i < |ops| ensures Renders(ops[i], h.body[i]) {
      DropReturnsAt(raw, i);
      WrittenRenders(ops[i], raw[i]);
    }
  }

  /** For text without a break inside a written line the condition is that of the edits alone. */
  lemma {:induction false} UnbrokenFileExactIff(ranges: seq<LineRange>, hunks: seq<Hunk>, pieces: seq<Piece>,
                                                raws: seq<seq<string>>, side: Side)
    requires TextFile(hunks, pieces, raws, side) && Separated(pieces)
    requires forall raw :: raw in raws ==> AllUnbroken(raw)
    requires Canonical(ranges) && Accumulated(ranges, hunks, side)
    ensures (forall line: nat :: Covers(ranges, line) <==> ChangedLine(pieces, side, line))
      <==> (forall p :: p in pieces ==> ExactHere(p.ops, side))
  {
    forall k | 0 <= k < |pieces| ensures Describes(hunks[k], pieces[k].ops, side, Base(pieces, side, k)) {
      assert raws[k] in raws;
      UnbrokenDescribes(hunks[k], pieces[k].ops, raws[k], side, Base(pieces, side, k));
    }
    FileExactIff(ranges, hunks, pieces, side);
  }
}

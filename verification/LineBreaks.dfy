/** How `str.splitlines` cuts the text of a diff into lines, and when it cuts inside one. */
module LineBreaks {

  /** The characters Python ends a line at. */
  predicate IsBreak(c: char) {
    || '\U{000a}' <= c <= '\U{000d}' || '\U{001c}' <= c <= '\U{001e}'
    || c == '\U{0085}' || c == '\U{2028}' || c == '\U{2029}'
  }

  /** How far the first line reaches. */
  function LineEnd(s: string): (n: nat)
    ensures n <= |s|
  {
    if s == "" || IsBreak(s[0]) then 0 else 1 + LineEnd(s[1..])
  }

  lemma {:induction false} LineEndIs(s: string)
    ensures forall i :: 0 <= i < LineEnd(s) ==> !IsBreak(s[i])
    ensures LineEnd(s) < |s| ==> IsBreak(s[LineEnd(s)])
  {
    if s != "" && !IsBreak(s[0]) {
      LineEndIs(s[1..]);
      forall i | 0 <= i < LineEnd(s) ensures !IsBreak(s[i]) {
        if i > 0 { assert s[i] == s[1..][i - 1]; }
      }
    }
  }

  /** A carriage return and a line feed are one break. */
  function BreakWidth(s: string, n: nat): (w: nat)
    requires n < |s|
    ensures 1 <= w && n + w <= |s|
  {
    if s[n] == '\r' && n + 1 < |s| && s[n + 1] == '\n' then 2 else 1
  }

  function SplitLines(s: string): seq<string>
    decreases |s|
  {
    if s == "" then []
    else
      var n := LineEnd(s);
      if n == |s| then [s] else [s[..n]] + SplitLines(s[n + BreakWidth(s, n)..])
  }

  /** Lines written one after the other, each closed by a line feed. */
  function TextOf(raw: seq<string>): string {
    if raw == [] then "" else raw[0] + "\n" + TextOf(raw[1..])
  }

  predicate OneLine(line: string) { '\n' !in line }

  /** What splitting makes of one written line. */
  function Fragments(line: string): seq<string> { SplitLines(line + "\n") }

  function FragmentsOf(raw: seq<string>): seq<string> {
    if raw == [] then [] else Fragments(raw[0]) + FragmentsOf(raw[1..])
  }

  lemma {:induction false} LineEndJoined(line: string, rest: string)
    ensures LineEnd(line + "\n" + rest) == LineEnd(line)
  {
    var s := line + "\n" + rest;
    if line == "" {
      assert s[0] == '\n';
    } else {
      assert s[0] == line[0] && s[1..] == line[1..] + "\n" + rest;
      if !IsBreak(line[0]) { LineEndJoined(line[1..], rest); }
    }
  }

  /** Where a written line is cut, and what is left of it. */
  datatype Cut = Whole(line: string) | Broken(first: string, rest: string)

  /** The first cut inside the line; a final carriage return belongs to the line feed that follows. */
  function FirstCut(line: string): Cut {
    var n := LineEnd(line);
    if n == |line| then Whole(line)
    else if n == |line| - 1 && line[n] == '\r' then Whole(line[..n])
    else Broken(line[..n], line[n + 1..])
  }

  lemma {:induction false} SplitAtCut(line: string, rest: string)
    requires OneLine(line)
    ensures SplitLines(line + "\n" + rest) ==
      match FirstCut(line)
      case Whole(first) => [first] + SplitLines(rest)
      case Broken(first, more) => [first] + SplitLines(more + "\n" + rest)
  {
    var s, n := line + "\n" + rest, LineEnd(line);
    LineEndJoined(line, rest);
    LineEndIs(s);
    assert n <= |line| < |s| && s[..n] == line[..n];
    var w := BreakWidth(s, n);
    if n == |line| {
      assert line[..n] == line && s[n] == '\n' && s[n + 1..] == rest;
    } else if n == |line| - 1 && line[n] == '\r' {
      assert s[n] == '\r' && s[n + 1] == '\n' && s[n + 2..] == rest;
    } else {
      assert s[n] == line[n];
      if n + 1 < |line| { assert s[n + 1] == line[n + 1]; }
      assert w == 1 && s[n + 1..] == line[n + 1..] + "\n" + rest;
    }
  }

  /** The fragments of a line: the part up to its first cut, then those of the rest. */
  lemma {:induction false} FragmentsAre(line: string)
    requires OneLine(line)
    ensures Fragments(line) ==
      match FirstCut(line)
      case Whole(first) => [first]
      case Broken(first, more) => [first] + Fragments(more)
    ensures |Fragments(line)| >= 1 && Fragments(line)[0] == line[..LineEnd(line)]
  {
    SplitAtCut(line, "");
    assert line + "\n" + "" == line + "\n";
    if FirstCut(line).Broken? { assert FirstCut(line).rest + "\n" + "" == FirstCut(line).rest + "\n"; }
    if LineEnd(line) == |line| { assert line[..|line|] == line; }
  }

  lemma {:induction false} Regroup(a: seq<string>, b: seq<string>, c: seq<string>)
    ensures a + (b + c) == (a + b) + c
  {
  }

  lemma {:induction false} SplitJoined(line: string, rest: string)
    requires OneLine(line)
    ensures SplitLines(line + "\n" + rest) == Fragments(line) + SplitLines(rest)
    decreases |line|
  {
    SplitAtCut(line, rest);
    FragmentsAre(line);
    var cut := FirstCut(line);
    if cut.Broken? {
      assert forall c :: c in cut.rest ==> c in line;
      SplitJoined(cut.rest, rest);
      Regroup([cut.first], Fragments(cut.rest), SplitLines(rest));
    }
  }

  /** A text of written lines is cut line by line. */
  lemma {:induction false} SplitText(raw: seq<string>)
    requires forall line :: line in raw ==> OneLine(line)
    ensures SplitLines(TextOf(raw)) == FragmentsOf(raw)
  {
    if raw != [] {
      assert raw[0] in raw && forall line :: line in raw[1..] ==> line in raw;
      SplitText(raw[1..]);
      SplitJoined(raw[0], TextOf(raw[1..]));
    }
  }

  /** No break inside; a final carriage return is none, as it joins the line feed. */
  predicate Unbroken(line: string) {
    forall i :: 0 <= i < |line| && IsBreak(line[i]) ==> i == |line| - 1 && line[i] == '\r'
  }

  function DropReturn(line: string): string {
    if line != "" && line[|line| - 1] == '\r' then line[..|line| - 1] else line
  }

  /** A line is read as one line exactly when no break is inside it. */
  lemma {:induction false} OneFragmentIff(line: string)
    requires OneLine(line)
    ensures |Fragments(line)| == 1 <==> Unbroken(line)
    ensures Unbroken(line) ==> Fragments(line) == [DropReturn(line)]
  {
    FragmentsAre(line);
    LineEndIs(line);
    var n := LineEnd(line);
    if FirstCut(line).Broken? {
      assert forall c :: c in FirstCut(line).rest ==> c in line;
      FragmentsAre(FirstCut(line).rest);
      assert IsBreak(line[n]);
    } else if n < |line| {
      assert line[n] == '\r';
    } else if line != "" {
      assert !IsBreak(line[|line| - 1]);
    }
  }

  ghost predicate AllUnbroken(raw: seq<string>) {
    forall line :: line in raw ==> Unbroken(line)
  }

  function DropReturns(raw: seq<string>): (r: seq<string>)
    ensures |r| == |raw|
  {
    if raw == [] then [] else [DropReturn(raw[0])] + DropReturns(raw[1..])
  }

  lemma {:induction false} FragmentsCount(raw: seq<string>)
    requires forall line :: line in raw ==> OneLine(line)
    ensures |FragmentsOf(raw)| >= |raw|
    ensures |FragmentsOf(raw)| == |raw| <==> AllUnbroken(raw)
    ensures AllUnbroken(raw) ==> FragmentsOf(raw) == DropReturns(raw)
  {
    if raw != [] {
      assert forall line :: line in raw <==> line == raw[0] || line in raw[1..];
      FragmentsCount(raw[1..]);
      OneFragmentIff(raw[0]);
      FragmentsAre(raw[0]);
    }
  }

  /** The parser sees one line for each written line if and only if no written line has a break inside. */
  lemma {:induction false} OneLineEachIff(raw: seq<string>)
    requires forall line :: line in raw ==> OneLine(line)
    ensures |SplitLines(TextOf(raw))| == |raw| <==> AllUnbroken(raw)
    ensures AllUnbroken(raw) ==> SplitLines(TextOf(raw)) == DropReturns(raw)
  {
    SplitText(raw);
    FragmentsCount(raw);
  }

  // ---- what splitting does -----------------------------------------------

  lemma {:induction false} BreaksAre(c: char)
    ensures IsBreak(c) <==> c in {
      '\U{000a}', '\U{000b}', '\U{000c}', '\U{000d}', '\U{001c}', '\U{001d}', '\U{001e}', '\U{0085}',
      '\U{2028}', '\U{2029}'}
  {
  }

  /** One break: a carriage return with its line feed, or a single break character. */
  predicate IsEnding(e: string) { e == "\r\n" || (|e| == 1 && IsBreak(e[0])) }

  function Rejoined(lines: seq<string>, ends: seq<string>): string
    requires |lines| == |ends|
  {
    if lines == [] then "" else lines[0] + ends[0] + Rejoined(lines[1..], ends[1..])
  }

  /** The lines hold no break, and with a break after each, the last one excepted if the text does not end in one, they
      are the text; a return and a feed are never taken for two. */
  ghost predicate SplitBy(s: string, lines: seq<string>, ends: seq<string>) {
    && |lines| == |ends| && Rejoined(lines, ends) == s
    && (forall i :: 0 <= i < |lines| ==> forall c :: c in lines[i] ==> !IsBreak(c))
    && (forall i :: 0 <= i < |ends| ==> IsEnding(ends[i]) || (i == |ends| - 1 && ends[i] == "" && lines[i] != ""))
    && (forall i :: 0 <= i < |ends| - 1 && ends[i] == "\r" ==> lines[i + 1] != "" || ends[i + 1][..1] != "\n")
  }

  lemma {:induction false} NoBreakBefore(s: string)
    ensures forall c :: c in s[..LineEnd(s)] ==> !IsBreak(c)
  {
    LineEndIs(s);
  }

  lemma {:induction false} EndingAt(s: string, n: nat)
    requires n < |s| && IsBreak(s[n])
    ensures IsEnding(s[n..n + BreakWidth(s, n)])
    ensures s == s[..n] + s[n..n + BreakWidth(s, n)] + s[n + BreakWidth(s, n)..]
    ensures s[n..n + BreakWidth(s, n)] == "\r" ==> s[n + 1..] == "" || s[n + 1] != '\n'
  {
    if BreakWidth(s, n) == 2 { assert s[n..n + 2] == [s[n], s[n + 1]]; } else { assert s[n..n + 1] == [s[n]]; }
  }

  lemma {:induction false} FirstOf(lines: seq<string>, ends: seq<string>, rest: string)
    requires SplitBy(rest, lines, ends) && lines != [] && lines[0] == "" && ends[0][..1] == "\n"
    ensures rest != "" && rest[0] == '\n'
  {
    assert ends[0][0] == ends[0][..1][0];
  }

  lemma {:induction false} SplitCons(s: string, line: string, e: string, rest: string, lines: seq<string>,
                                     ends: seq<string>)
    requires s == line + e + rest && SplitBy(rest, lines, ends)
    requires (forall c :: c in line ==> !IsBreak(c)) && IsEnding(e)
    requires e == "\r" ==> rest == "" || rest[0] != '\n'
    ensures SplitBy(s, [line] + lines, [e] + ends)
  {
    var all, both := [line] + lines, [e] + ends;
    assert all[1..] == lines && both[1..] == ends;
    if e == "\r" && lines != [] && lines[0] == "" && ends[0][..1] == "\n" { FirstOf(lines, ends, rest); }
    forall i | 0 <= i < |both| - 1 && both[i] == "\r" ensures all[i + 1] != "" || both[i + 1][..1] != "\n" {
      if i > 0 { assert ends[i - 1] == "\r"; }
    }
  }

  lemma {:induction false} SplitIs(s: string) returns (ends: seq<string>)
    ensures SplitBy(s, SplitLines(s), ends)
    decreases |s|
  {
    var n := LineEnd(s);
    NoBreakBefore(s);
    LineEndIs(s);
    if s == "" {
      ends := [];
    } else if n == |s| {
      ends := [""];
      assert s[..n] == s && [s][1..] == [] && [""][1..] == [];
    } else {
      var w := BreakWidth(s, n);
      var more := SplitIs(s[n + w..]);
      ends := [s[n..n + w]] + more;
      EndingAt(s, n);
      SplitCons(s, s[..n], s[n..n + w], s[n + w..], SplitLines(s[n + w..]), more);
    }
  }
}

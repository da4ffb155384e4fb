/** What a parsed testcase says, read off the document: where its outcome, its details, its path and its output
    come from. */
module JunitCases {
  import opened Models
  import opened JunitTree
  import opened Junit

  // ---- the failure details -----------------------------------------------

  /** A child that may supply type, message and trace. */
  ghost predicate Supplies(children: seq<Element>, k: int) {
    0 <= k < |children| && (children[k].tag.Rerun? || Deciding(children, k))
  }

  ghost predicate NoneSupplies(children: seq<Element>) { forall i :: !Supplies(children, i) }

  /** The deciding child supplies the details, and so does the first rerun with a message as long as there is none;
      `k` is the child that has the last word. */
  ghost predicate LastWord(children: seq<Element>, k: int) {
    && Supplies(children, k)
    && (forall i :: k < i && Supplies(children, i) ==> !Deciding(children, i) && children[k].message.Some?)
    && (Deciding(children, k)
        || forall i :: i < k && Supplies(children, i) && NoneDecides(children, i, k) ==> children[i].message.None?)
  }

  ghost predicate NoneDecides(children: seq<Element>, i: int, k: int) {
    forall j :: i < j <= k ==> !Deciding(children, j)
  }

  predicate SameDetails(p: Parts, c: Element) {
    p.failureType == c.kind && p.failureMessage == c.message && p.stackTrace == c.text
  }

  lemma {:induction false} SuppliesStays(children: seq<Element>, k: int)
    requires children != [] && k < |children| - 1
    ensures Supplies(children, k) <==> Supplies(children[..|children| - 1], k)
    ensures Deciding(children, k) <==> Deciding(children[..|children| - 1], k)
  {
    DecidingStays(children, k);
  }

  /** The last child decides exactly when it is failure-like and the ones before it passed. */
  lemma {:induction false} DecidesLast(children: seq<Element>)
    requires children != []
    ensures var n := |children| - 1;
      Deciding(children, n) <==>
      children[n].tag in {Failure, ErrorTag, Skipped} && PartsOf(children[..n]).outcome.Pass?
  {
    var n := |children| - 1;
    OutcomeMeaning(children[..n]);
    assert forall i :: 0 <= i < n ==> children[i] in children[..n];
  }

  /** Adding a child that supplies nothing. */
  lemma {:induction false} LastWordStays(children: seq<Element>, k: int)
    requires children != [] && LastWord(children[..|children| - 1], k)
    requires var n := |children| - 1;
      Supplies(children, n) ==> children[n].tag.Rerun? && children[k].message.Some?
    ensures LastWord(children, k)
  {
    var rest := children[..|children| - 1];
    forall i | i < |rest| ensures (Supplies(children, i) <==> Supplies(rest, i))
      ensures (Deciding(children, i) <==> Deciding(rest, i)) {
      SuppliesStays(children, i);
    }
    forall i | i < k && Supplies(children, i) && NoneDecides(children, i, k) && !Deciding(children, k)
      ensures children[i].message.None?
    {
      assert NoneDecides(rest, i, k);
    }
  }

  /** A rerun that comes while there is no message. */
  lemma {:induction false} RerunTakesOver(children: seq<Element>, k: int)
    requires children != [] && children[|children| - 1].tag.Rerun?
    requires k < 0 ==> NoneSupplies(children[..|children| - 1])
    requires k >= 0 ==> LastWord(children[..|children| - 1], k) && children[k].message.None?
    ensures LastWord(children, |children| - 1)
  {
    var n, rest := |children| - 1, children[..|children| - 1];
    forall i | i < n && Supplies(children, i) && NoneDecides(children, i, n) ensures children[i].message.None? {
      SuppliesStays(children, i);
      SuppliesStays(children, k);
      if i < k {
        assert NoneDecides(rest, i, k) by {
          forall j | i < j <= k ensures !Deciding(rest, j) { SuppliesStays(children, j); }
        }
      }
    }
  }

  /** The details are those of the child that has the last word, and there are none if no child supplies any. */
  lemma {:induction false} DetailsMeaning(children: seq<Element>) returns (k: int)
    ensures k < 0 ==> NoneSupplies(children)
    ensures k < 0 ==> var p := PartsOf(children);
      p.failureType.None? && p.failureMessage.None? && p.stackTrace.None?
    ensures k >= 0 ==> LastWord(children, k) && SameDetails(PartsOf(children), children[k])
    decreases |children|
  {
    k := -1;
    if children != [] {
      var n, rest := |children| - 1, children[..|children| - 1];
      var m := DetailsMeaning(rest);
      DecidesLast(children);
      if Deciding(children, n) {
        k := n;
      } else if children[n].tag.Rerun? && PartsOf(rest).failureMessage.None? {
        RerunTakesOver(children, m);
        k := n;
      } else {
        k := m;
        if m >= 0 {
          LastWordStays(children, m);
        } else {
          forall i ensures !Supplies(children, i) {
            if i < n { SuppliesStays(children, i); }
          }
        }
      }
    }
  }

  // ---- the suite path ----------------------------------------------------

  /** The parts between slashes. */
  function Segments(s: string): (r: seq<string>)
    ensures r != []
  {
    if s == "" then [""]
    else
      var rest := Segments(s[1..]);
      if s[0] == '/' then [""] + rest else [[s[0]] + rest[0]] + rest[1..]
  }

  function Named(path: seq<SuiteHead>): seq<string> {
    if path == [] then []
    else Named(path[..|path| - 1]) + if path[|path| - 1].name == "" then [] else [path[|path| - 1].name]
  }

  lemma {:induction false} OneSegment(s: string)
    requires '/' !in s
    ensures Segments(s) == [s]
  {
    if s != "" {
      OneSegment(s[1..]);
      assert s == [s[0]] + s[1..] && s[0] in s;
    }
  }

  lemma {:induction false} SegmentsJoin(a: string, b: string)
    requires '/' !in b
    ensures Segments(a + "/" + b) == Segments(a) + [b]
  {
    if a == "" {
      assert a + "/" + b == "/" + b && ("/" + b)[1..] == b;
      OneSegment(b);
    } else {
      assert (a + "/" + b)[1..] == a[1..] + "/" + b;
      SegmentsJoin(a[1..], b);
    }
  }

  /** With no slash in a name the path can be taken apart again: its segments are the suites that have a name, outermost
      first. */
  lemma {:induction false} PathSegments(path: seq<SuiteHead>)
    requires forall h :: h in path ==> '/' !in h.name
    ensures SuitePath(path) == "" <==> Named(path) == []
    ensures Named(path) != [] ==> Segments(SuitePath(path)) == Named(path)
  {
    if path != [] {
      var n := |path| - 1;
      assert path[n] in path && forall h :: h in path[..n] ==> h in path;
      PathSegments(path[..n]);
      var name, before := path[n].name, SuitePath(path[..n]);
      if name != "" {
        if before == "" { OneSegment(name); } else { SegmentsJoin(before, name); }
      }
    }
  }

  /** The innermost suite that declares a file, if any does. */
  lemma {:induction false} FileMeaning(path: seq<SuiteHead>) returns (k: int)
    ensures -1 <= k < |path| && forall i :: k < i < |path| ==> path[i].file.None?
    ensures if k < 0 then InheritedFile(path).None? else path[k].file.Some? && InheritedFile(path) == path[k].file
  {
    if path == [] {
      k := -1;
    } else if path[|path| - 1].file.Some? {
      k := |path| - 1;
    } else {
      k := FileMeaning(path[..|path| - 1]);
    }
  }

  // ---- every testcase of a document --------------------------------------

  /** Testcase `c` stands among `es`, in no testcase, and the suites around it are those of `spine`, outermost first. */
  ghost predicate StandsIn(es: seq<Element>, spine: seq<Element>, c: Element)
    decreases es
  {
    || (spine == [] && c.tag.TestCase? && c in es)
    || exists e :: e in es && StandsWithin(e, spine, c)
  }

  ghost predicate StandsWithin(e: Element, spine: seq<Element>, c: Element)
    decreases e
  {
    match e.tag
    case TestCase => false
    case TestSuite => spine != [] && spine[0] == e && StandsIn(e.children, spine[1..], c)
    case _ => StandsIn(e.children, spine, c)
  }

  function HeadsOf(spine: seq<Element>): (r: seq<SuiteHead>)
    ensures |r| == |spine|
  {
    seq(|spine|, i requires 0 <= i < |spine| => SuiteHead(spine[i].name, spine[i].file))
  }

  /** The text of the last output child of the kind, blank or not. */
  function OwnOutput(children: seq<Element>, tag: Tag): Option<string> {
    if children == [] then None
    else if children[|children| - 1].tag == tag then children[|children| - 1].text
    else OwnOutput(children[..|children| - 1], tag)
  }

  /** What the innermost suite that declares any leaves for its testcases. */
  function SuiteOut(spine: seq<Element>, outer: Option<string>): Option<string> {
    if spine == [] then outer
    else
      var own := DeclaresAll(spine[0].children, Nothing).out;
      SuiteOut(spine[1..], if own.Some? then own else outer)
  }

  function SuiteErr(spine: seq<Element>, outer: Option<string>): Option<string> {
    if spine == [] then outer
    else
      var own := DeclaresAll(spine[0].children, Nothing).err;
      SuiteErr(spine[1..], if own.Some? then own else outer)
  }

  lemma {:induction false} OwnOutputIs(children: seq<Element>)
    ensures PartsOf(children).stdout == OwnOutput(children, SystemOut)
    ensures PartsOf(children).stderr == OwnOutput(children, SystemErr)
  {
    if children != [] { OwnOutputIs(children[..|children| - 1]); }
  }

  function Around(spine: seq<Element>, outer: Captured): Captured {
    if spine == [] then outer else Around(spine[1..], Inherit(DeclaresAll(spine[0].children, Nothing), outer))
  }

  lemma {:induction false} AroundIs(spine: seq<Element>, outer: Captured)
    ensures Around(spine, outer) == Captured(SuiteOut(spine, outer.out), SuiteErr(spine, outer.err))
  {
    if spine != [] { AroundIs(spine[1..], Inherit(DeclaresAll(spine[0].children, Nothing), outer)); }
  }

  lemma {:induction false} ReadOfMember(es: seq<Element>, e: Element, path: seq<SuiteHead>, outer: Captured,
                                        inCase: bool, origin: string, r: TestCaseResult)
    requires e in es && r in Read(e, path, outer, inCase, origin)
    ensures r in ReadAll(es, path, outer, inCase, origin)
  {
    if e != es[0] { ReadOfMember(es[1..], e, path, outer, inCase, origin, r); }
  }

  lemma {:induction false} CaseIsRead(es: seq<Element>, spine: seq<Element>, c: Element, path: seq<SuiteHead>,
                                      outer: Captured, origin: string)
    requires StandsIn(es, spine, c)
    ensures Fill(Build(c, path + HeadsOf(spine), origin), Around(spine, outer)) in
      ReadAll(es, path, outer, false, origin)
    decreases es
  {
    var r := Fill(Build(c, path + HeadsOf(spine), origin), Around(spine, outer));
    if spine == [] && c.tag.TestCase? && c in es {
      assert path + HeadsOf(spine) == path;
      ReadOfMember(es, c, path, outer, false, origin, r);
    } else {
      var e :| e in es && StandsWithin(e, spine, c);
      CaseIsReadWithin(e, spine, c, path, outer, origin);
      ReadOfMember(es, e, path, outer, false, origin, r);
    }
  }

  lemma {:induction false} CaseIsReadWithin(e: Element, spine: seq<Element>, c: Element, path: seq<SuiteHead>,
                                            outer: Captured, origin: string)
    requires StandsWithin(e, spine, c)
    ensures Fill(Build(c, path + HeadsOf(spine), origin), Around(spine, outer)) in Read(e, path, outer, false, origin)
    decreases e
  {
    if e.tag.TestSuite? {
      var inner := Inherit(DeclaresAll(e.children, Nothing), outer);
      CaseIsRead(e.children, spine[1..], c, path + [HeadOf(e)], inner, origin);
      assert path + HeadsOf(spine) == path + [HeadOf(e)] + HeadsOf(spine[1..]);
    } else {
      CaseIsRead(e.children, spine, c, path, outer, origin);
    }
  }

  /** The attributes are the element's own, the file else the innermost declared one. */
  ghost predicate PlacedAs(c: Element, spine: seq<Element>, origin: string, r: TestCaseResult) {
    && r.name == c.name && r.classname == c.classname && r.line == c.line && r.durationMs == c.durationMs
    && r.sourceFile == origin
    && (c.file.Some? ==> r.filePath == c.file)
    && (c.file.None? ==>
      exists k :: -1 <= k < |spine| && (forall i :: k < i < |spine| ==> spine[i].file.None?) &&
        r.filePath == if k < 0 then None else spine[k].file)
  }

  /** The outcome and its details come from the children. */
  ghost predicate JudgedAs(c: Element, r: TestCaseResult) {
    && OutcomeIs(c.children, r.outcome)
    && (r.rerunObserved <==> exists child :: child in c.children && child.tag.Rerun?)
    && (NoneSupplies(c.children) ==> r.failureType.None? && r.failureMessage.None? && r.stackTrace.None?)
    && (!NoneSupplies(c.children) ==>
      exists k :: LastWord(c.children, k) && r.failureType == c.children[k].kind &&
        r.failureMessage == c.children[k].message && r.stackTrace == c.children[k].text)
  }

  /** Output is the testcase's own, else that of the innermost suite that declares some. */
  predicate HeardAs(c: Element, spine: seq<Element>, r: TestCaseResult) {
    var out, err := OwnOutput(c.children, SystemOut), OwnOutput(c.children, SystemErr);
    && r.stdout == (if out.Some? then out else SuiteOut(spine, None))
    && r.stderr == (if err.Some? then err else SuiteErr(spine, None))
  }

  lemma {:induction false} BuiltAsPlaced(c: Element, spine: seq<Element>, origin: string)
    ensures PlacedAs(c, spine, origin, Build(c, HeadsOf(spine), origin))
    ensures Build(c, HeadsOf(spine), origin).suitePath == SuitePath(HeadsOf(spine))
  {
    var heads := HeadsOf(spine);
    var k := FileMeaning(heads);
    assert forall i :: 0 <= i < |spine| ==> heads[i].file == spine[i].file;
  }

  lemma {:induction false} BuiltAsJudged(c: Element, path: seq<SuiteHead>, origin: string)
    ensures JudgedAs(c, Build(c, path, origin))
  {
    OutcomeMeaning(c.children);
    RerunMeaning(c.children);
    var k := DetailsMeaning(c.children);
    if k < 0 { assert NoneSupplies(c.children); } else { assert Supplies(c.children, k); }
  }

  /** Every testcase of a document that stands in no other is recovered, and says what the document says. */
  lemma {:induction false} EveryCaseIsRecovered(root: Element, spine: seq<Element>, c: Element, origin: string)
    returns (r: TestCaseResult)
    requires StandsIn([root], spine, c)
    ensures r in Recovered(Events(root), origin)
    ensures PlacedAs(c, spine, origin, r) && JudgedAs(c, r) && HeardAs(c, spine, r)
    ensures r.suitePath == SuitePath(HeadsOf(spine))
  {
    var built := Build(c, HeadsOf(spine), origin);
    r := Fill(built, Around(spine, Nothing));
    CaseIsRead([root], spine, c, [], Nothing, origin);
    assert [] + HeadsOf(spine) == HeadsOf(spine);
    WholeDocumentIsRead(root, origin);
    assert [root][1..] == [];
    assert ReadAll([root], [], Nothing, false, origin) == Read(root, [], Nothing, false, origin) + [];
    BuiltAsPlaced(c, spine, origin);
    BuiltAsJudged(c, HeadsOf(spine), origin);
    OwnOutputIs(c.children);
    AroundIs(spine, Nothing);
    JudgedAfterFill(c, built, r);
  }

  lemma {:induction false} JudgedAfterFill(c: Element, built: TestCaseResult, r: TestCaseResult)
    requires JudgedAs(c, built) && r == built.(stdout := r.stdout, stderr := r.stderr)
    ensures JudgedAs(c, r)
  {
    if !NoneSupplies(c.children) {
      var k :| LastWord(c.children, k) && built.failureType == c.children[k].kind &&
        built.failureMessage == c.children[k].message && built.stackTrace == c.children[k].text;
    }
  }
}

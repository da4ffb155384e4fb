/** ingest/junit.py: the event-driven stack machine, and why it computes the recursive reading on
    every prefix of every document. */
module Junit {
  import opened Models
  import opened JunitTree

  datatype Frame = Frame(head: SuiteHead, captured: Captured, cases: seq<TestCaseResult>)

  datatype State = State(cases: seq<TestCaseResult>, suites: seq<Frame>, depth: nat)

  const Initial := State([], [], 0)

  // ---- the machine -------------------------------------------------------

  function Heads(suites: seq<Frame>): (r: seq<SuiteHead>)
    ensures |r| == |suites|
  {
    seq(|suites|, k requires 0 <= k < |suites| => suites[k].head)
  }

  function FillAll(cases: seq<TestCaseResult>, from: Captured): (r: seq<TestCaseResult>)
    ensures |r| == |cases|
  {
    seq(|cases|, k requires 0 <= k < |cases| => Fill(cases[k], from))
  }

  function Top(suites: seq<Frame>): Frame
    requires suites != []
  {
    suites[|suites| - 1]
  }

  function Below(suites: seq<Frame>): seq<Frame>
    requires suites != []
  {
    suites[..|suites| - 1]
  }

  /** Hand cases to the innermost open suite, or to the result if none is open. */
  function Deliver(st: State, more: seq<TestCaseResult>): State {
    if st.suites == [] then st.(cases := st.cases + more)
    else
      var top := Top(st.suites);
      st.(suites := Below(st.suites) + [top.(cases := top.cases + more)])
  }

  function CloseSuite(st: State): State
    requires st.suites != []
  {
    var top := Top(st.suites);
    Deliver(st.(suites := Below(st.suites)), FillAll(top.cases, top.captured))
  }

  function Attach(st: State, e: Element): State
    requires st.suites != []
  {
    var top := Top(st.suites);
    var captured := if e.tag.SystemOut? then top.captured.(out := e.text) else top.captured.(err := e.text);
    st.(suites := Below(st.suites) + [top.(captured := captured)])
  }

  function Step(st: State, ev: Event, origin: string): State {
    match ev
    case Start(e) =>
      if e.tag.TestSuite? then st.(suites := st.suites + [Frame(HeadOf(e), Nothing, [])])
      else if e.tag.TestCase? then st.(depth := st.depth + 1)
      else st
    case End(e) =>
      if e.tag.TestCase? then
        Deliver(st.(depth := if st.depth > 0 then st.depth - 1 else 0), [Build(e, Heads(st.suites), origin)])
      else if e.tag.TestSuite? then if st.suites != [] then CloseSuite(st) else st
      else if (e.tag.SystemOut? || e.tag.SystemErr?) && st.suites != [] && st.depth == 0 then Attach(st, e)
      else st
  }

  function Run(st: State, es: seq<Event>, origin: string): State {
    if es == [] then st else Step(Run(st, es[..|es| - 1], origin), es[|es| - 1], origin)
  }

  /** Close every suite that is still open, innermost first. */
  function Drain(st: State): seq<TestCaseResult>
    decreases |st.suites|
  {
    if st.suites == [] then st.cases else Drain(CloseSuite(st))
  }

  /** The cases recovered from a stream of events, complete or cut short. */
  function Recovered(es: seq<Event>, origin: string): seq<TestCaseResult> { Drain(Run(Initial, es, origin)) }

  // ---- running over pieces -----------------------------------------------

  lemma {:induction false} RunAppend(st: State, a: seq<Event>, b: seq<Event>, origin: string)
    ensures Run(st, a + b, origin) == Run(Run(st, a, origin), b, origin)
    decreases |b|
  {
    if b == [] {
      assert a + b == a;
    } else {
      assert (a + b)[..|a + b| - 1] == a + b[..|b| - 1];
      RunAppend(st, a, b[..|b| - 1], origin);
    }
  }

  lemma RunOne(st: State, ev: Event, origin: string)
    ensures Run(st, [ev], origin) == Step(st, ev, origin)
  {
    assert [ev][..0] == [];
  }

  /** The state after a complete piece of document: its cases delivered, its output declared. */
  function Absorb(st: State, cases: seq<TestCaseResult>, captured: Captured): State {
    if st.suites == [] then st.(cases := st.cases + cases)
    else
      var top := Top(st.suites);
      st.(suites := Below(st.suites) + [Frame(top.head, captured, top.cases + cases)])
  }

  /** What the innermost open suite declares after the piece, if output is the suite's own there. */
  function After(st: State, declared: Captured): Captured {
    if st.suites == [] then Nothing else if st.depth > 0 then Top(st.suites).captured else declared
  }

  function Now(st: State): Captured { if st.suites == [] then Nothing else Top(st.suites).captured }

  function Local(e: Element, st: State, origin: string): seq<TestCaseResult> {
    Read(e, Heads(st.suites), Nothing, st.depth > 0, origin)
  }

  function LocalAll(es: seq<Element>, st: State, origin: string): seq<TestCaseResult> {
    ReadAll(es, Heads(st.suites), Nothing, st.depth > 0, origin)
  }

  lemma FillTwice(c: TestCaseResult, own: Captured, outer: Captured)
    ensures Fill(Fill(c, own), outer) == Fill(c, Inherit(own, outer))
    ensures Fill(c, Nothing) == c
    ensures Inherit(own, Nothing) == own && Inherit(Nothing, outer) == outer
  {
  }

  lemma FillAllJoin(a: seq<TestCaseResult>, b: seq<TestCaseResult>, from: Captured)
    ensures FillAll(a + b, from) == FillAll(a, from) + FillAll(b, from)
  {
  }

  /** Inheriting on the way down is the same as filling in on the way up. */
  lemma {:induction false} ReadFills(e: Element, path: seq<SuiteHead>, own: Captured, outer: Captured, inCase: bool,
                                     origin: string)
    ensures Read(e, path, Inherit(own, outer), inCase, origin) == FillAll(Read(e, path, own, inCase, origin), outer)
    decreases e, 0
  {
    match e.tag
    case TestSuite =>
      var mine := if inCase then Nothing else DeclaresAll(e.children, Nothing);
      assert Inherit(mine, Inherit(own, outer)) == Inherit(Inherit(mine, own), outer);
      ReadAllFills(e.children, path + [HeadOf(e)], Inherit(mine, own), outer, inCase, origin);
    case TestCase =>
      ReadAllFills(e.children, path, own, outer, true, origin);
      FillTwice(Build(e, path, origin), own, outer);
      FillAllJoin(ReadAll(e.children, path, own, true, origin), [Fill(Build(e, path, origin), own)], outer);
    case _ =>
      ReadAllFills(e.children, path, own, outer, inCase, origin);
  }

  lemma {:induction false} ReadAllFills(es: seq<Element>, path: seq<SuiteHead>, own: Captured, outer: Captured,
                                        inCase: bool, origin: string)
    ensures ReadAll(es, path, Inherit(own, outer), inCase, origin) ==
      FillAll(ReadAll(es, path, own, inCase, origin), outer)
    decreases es, 1
  {
    if es != [] {
      ReadFills(es[0], path, own, outer, inCase, origin);
      ReadAllFills(es[1..], path, own, outer, inCase, origin);
      FillAllJoin(Read(es[0], path, own, inCase, origin), ReadAll(es[1..], path, own, inCase, origin), outer);
    }
  }

  lemma AbsorbShape(st: State, cases: seq<TestCaseResult>, captured: Captured)
    ensures var r := Absorb(st, cases, captured);
      && Heads(r.suites) == Heads(st.suites) && r.depth == st.depth && |r.suites| == |st.suites|
      && (st.suites != [] ==> Now(r) == captured)
  {
    var r := Absorb(st, cases, captured);
    assert Heads(r.suites) == Heads(st.suites);
  }

  lemma AbsorbTwice(st: State, a: seq<TestCaseResult>, x: Captured, b: seq<TestCaseResult>, y: Captured)
    ensures Absorb(Absorb(st, a, x), b, y) == Absorb(st, a + b, y)
  {
    if st.suites == [] {
      assert st.cases + a + b == st.cases + (a + b);
    } else {
      var top := Top(st.suites);
      assert top.cases + a + b == top.cases + (a + b);
      assert Below(Absorb(st, a, x).suites) == Below(st.suites);
    }
  }

  lemma AbsorbNothing(st: State)
    ensures Absorb(st, [], Now(st)) == st
  {
    if st.suites != [] {
      assert Below(st.suites) + [Top(st.suites)] == st.suites;
      assert Top(st.suites).cases + [] == Top(st.suites).cases;
    } else {
      assert st.cases + [] == st.cases;
    }
  }

  lemma DeliverIsAbsorb(st: State, more: seq<TestCaseResult>)
    ensures Deliver(st, more) == Absorb(st, more, Now(st))
  {
  }

  ghost predicate Absorbed(st: State, e: Element, origin: string) {
    Run(st, Events(e), origin) == Absorb(st, Local(e, st, origin), After(st, Declares(e, Now(st))))
  }

  ghost predicate AbsorbedAll(st: State, es: seq<Element>, origin: string) {
    Run(st, EventsAll(es), origin) == Absorb(st, LocalAll(es, st, origin), After(st, DeclaresAll(es, Now(st))))
  }

  lemma RunEvents(st: State, e: Element, origin: string)
    ensures Run(st, Events(e), origin) ==
      Step(Run(Step(st, Start(e), origin), EventsAll(e.children), origin), End(e), origin)
  {
    var inner := EventsAll(e.children);
    RunAppend(st, [Start(e)] + inner, [End(e)], origin);
    RunAppend(st, [Start(e)], inner, origin);
    RunOne(st, Start(e), origin);
    RunOne(Run(st, [Start(e)] + inner, origin), End(e), origin);
  }

  /** Opening a suite, absorbing its content and closing it again. */
  lemma OpenAbsorbClose(st: State, e: Element, cases: seq<TestCaseResult>, own: Captured, origin: string)
    requires e.tag.TestSuite?
    ensures var st1 := Step(st, Start(e), origin);
      && Now(st1) == Nothing && st1.depth == st.depth && st1.suites != []
      && Heads(st1.suites) == Heads(st.suites) + [HeadOf(e)]
      && Absorb(st1, cases, own).suites != []
      && CloseSuite(Absorb(st1, cases, own)) == Absorb(st, FillAll(cases, own), Now(st))
  {
    var st1 := Step(st, Start(e), origin);
    assert Below(st1.suites) == st.suites;
    assert [] + cases == cases;
    var st2 := Absorb(st1, cases, own);
    assert Top(st2.suites) == Frame(HeadOf(e), own, cases);
    assert Below(st2.suites) == st.suites;
    DeliverIsAbsorb(st, FillAll(cases, own));
  }

  lemma InheritNothing(own: Captured)
    ensures Inherit(own, Nothing) == own && Inherit(Nothing, own) == own
  {
  }

  lemma SuiteAbsorbed(st: State, e: Element, origin: string)
    requires e.tag.TestSuite?
    requires AbsorbedAll(Step(st, Start(e), origin), e.children, origin)
    ensures Absorbed(st, e, origin)
  {
    var st1 := Step(st, Start(e), origin);
    var own := if st.depth > 0 then Nothing else DeclaresAll(e.children, Nothing);
    var cases := LocalAll(e.children, st1, origin);
    RunEvents(st, e, origin);
    OpenAbsorbClose(st, e, cases, own, origin);
    ReadAllFills(e.children, Heads(st1.suites), Nothing, own, st.depth > 0, origin);
    InheritNothing(own);
    assert Local(e, st, origin) == FillAll(cases, own);
  }

  lemma CaseAbsorbed(st: State, e: Element, origin: string)
    requires e.tag.TestCase?
    requires AbsorbedAll(Step(st, Start(e), origin), e.children, origin)
    ensures Absorbed(st, e, origin)
  {
    var st1 := Step(st, Start(e), origin);
    RunEvents(st, e, origin);
    var cases := LocalAll(e.children, st1, origin);
    AbsorbShape(st1, cases, Now(st1));
    var st2 := Absorb(st1, cases, Now(st1));
    var built := Build(e, Heads(st.suites), origin);
    assert Step(st2, End(e), origin) == Deliver(Absorb(st, cases, Now(st)), [built]);
    DeliverIsAbsorb(Absorb(st, cases, Now(st)), [built]);
    AbsorbShape(st, cases, Now(st));
    AbsorbTwice(st, cases, Now(st), [built], Now(st));
    FillTwice(built, Nothing, Nothing);
  }

  lemma OtherAbsorbed(st: State, e: Element, origin: string)
    requires !e.tag.TestSuite? && !e.tag.TestCase?
    requires AbsorbedAll(st, e.children, origin)
    ensures Absorbed(st, e, origin)
  {
    RunEvents(st, e, origin);
    var cases := LocalAll(e.children, st, origin);
    var captured := After(st, DeclaresAll(e.children, Now(st)));
    var st2 := Absorb(st, cases, captured);
    AbsorbShape(st, cases, captured);
    if (e.tag.SystemOut? || e.tag.SystemErr?) && st.suites != [] && st.depth == 0 {
      assert Below(st2.suites) == Below(st.suites);
    }
  }

  /** Running over a complete element delivers its reading to the enclosing suite. */
  lemma {:induction false} RunElement(st: State, e: Element, origin: string)
    ensures Absorbed(st, e, origin)
    decreases e, 0
  {
    RunElements(Step(st, Start(e), origin), e.children, origin);
    if e.tag.TestSuite? {
      SuiteAbsorbed(st, e, origin);
    } else if e.tag.TestCase? {
      CaseAbsorbed(st, e, origin);
    } else {
      OtherAbsorbed(st, e, origin);
    }
  }

  lemma {:induction false} RunElements(st: State, es: seq<Element>, origin: string)
    ensures AbsorbedAll(st, es, origin)
    decreases es, 1
  {
    if es == [] {
      AbsorbNothing(st);
      assert After(st, Now(st)) == Now(st);
    } else {
      RunElement(st, es[0], origin);
      var captured := After(st, Declares(es[0], Now(st)));
      var st1 := Absorb(st, Local(es[0], st, origin), captured);
      AbsorbShape(st, Local(es[0], st, origin), captured);
      RunElements(st1, es[1..], origin);
      RunAppend(st, Events(es[0]), EventsAll(es[1..]), origin);
      AbsorbTwice(st, Local(es[0], st, origin), captured, LocalAll(es[1..], st, origin),
        After(st1, DeclaresAll(es[1..], Now(st1))));
    }
  }

  // ---- truncation --------------------------------------------------------

  lemma {:induction false} DocFills(d: Doc, path: seq<SuiteHead>, own: Captured, outer: Captured, inCase: bool,
                                    origin: string)
    ensures DocRead(d, path, Inherit(own, outer), inCase, origin) ==
      FillAll(DocRead(d, path, own, inCase, origin), outer)
  {
    ReadAllFills(d.closed, path, own, outer, inCase, origin);
    match d.open
    case Finished =>
      FillAllJoin(ReadAll(d.closed, path, own, inCase, origin), [], outer);
    case Within(e, inner) =>
      match e.tag {
        case TestSuite =>
          var mine := if inCase then Nothing else DocDeclares(inner, Nothing);
          assert Inherit(mine, Inherit(own, outer)) == Inherit(Inherit(mine, own), outer);
          DocFills(inner, path + [HeadOf(e)], Inherit(mine, own), outer, inCase, origin);
          FillAllJoin(ReadAll(d.closed, path, own, inCase, origin),
                      DocRead(inner, path + [HeadOf(e)], Inherit(mine, own), inCase, origin), outer);
        case TestCase =>
          DocFills(inner, path, own, outer, true, origin);
          FillAllJoin(ReadAll(d.closed, path, own, inCase, origin), DocRead(inner, path, own, true, origin), outer);
        case _ =>
          DocFills(inner, path, own, outer, inCase, origin);
          FillAllJoin(ReadAll(d.closed, path, own, inCase, origin), DocRead(inner, path, own, inCase, origin), outer);
      }
  }

  lemma {:induction false} DrainDepth(st: State, depth: nat)
    ensures Drain(st.(depth := depth)) == Drain(st)
    decreases |st.suites|
  {
    if st.suites != [] {
      assert CloseSuite(st.(depth := depth)) == CloseSuite(st).(depth := depth);
      DrainDepth(CloseSuite(st), depth);
    }
  }

  /** What draining recovers is the reading of the truncated document. */
  ghost predicate Drained(st: State, d: Doc, origin: string) {
    Drain(Run(st, DocEvents(d), origin)) ==
    Drain(Absorb(st, DocRead(d, Heads(st.suites), Nothing, st.depth > 0, origin), After(st, DocDeclares(d, Now(st)))))
  }

  /** The state once the closed elements of a truncated document are absorbed. */
  function Closed(st: State, d: Doc, origin: string): State {
    Absorb(st, LocalAll(d.closed, st, origin), After(st, DeclaresAll(d.closed, Now(st))))
  }

  lemma RunClosed(st: State, d: Doc, origin: string)
    ensures Run(st, DocEvents(d), origin) ==
      match d.open
      case Finished => Closed(st, d, origin)
      case Within(e, inner) => Run(Step(Closed(st, d, origin), Start(e), origin), DocEvents(inner), origin)
  {
    RunElements(st, d.closed, origin);
    match d.open
    case Finished =>
      assert EventsAll(d.closed) + [] == EventsAll(d.closed);
    case Within(e, inner) =>
      var st1 := Closed(st, d, origin);
      RunAppend(st, EventsAll(d.closed), [Start(e)] + DocEvents(inner), origin);
      RunAppend(st1, [Start(e)], DocEvents(inner), origin);
      RunOne(st1, Start(e), origin);
  }

  lemma SuiteDocRead(st: State, d: Doc, e: Element, inner: Doc, own: Captured, origin: string)
    requires d.open == Within(e, inner) && e.tag.TestSuite?
    requires own == if st.depth > 0 then Nothing else DocDeclares(inner, Nothing)
    ensures DocRead(d, Heads(st.suites), Nothing, st.depth > 0, origin) ==
      LocalAll(d.closed, st, origin)
      + FillAll(DocRead(inner, Heads(st.suites) + [HeadOf(e)], Nothing, st.depth > 0, origin), own)
  {
    DocFills(inner, Heads(st.suites) + [HeadOf(e)], Nothing, own, st.depth > 0, origin);
    InheritNothing(own);
  }

  lemma OpenSuite(st: State, d: Doc, origin: string)
    requires d.open.Within? && d.open.element.tag.TestSuite?
    requires Drained(Step(Closed(st, d, origin), Start(d.open.element), origin), d.open.inner, origin)
    ensures Drained(st, d, origin)
  {
    var e, inner := d.open.element, d.open.inner;
    var st1 := Closed(st, d, origin);
    var st2 := Step(st1, Start(e), origin);
    var own := if st.depth > 0 then Nothing else DocDeclares(inner, Nothing);
    var now := After(st, DeclaresAll(d.closed, Now(st)));
    RunClosed(st, d, origin);
    AbsorbShape(st, LocalAll(d.closed, st, origin), now);
    var cases := DocRead(inner, Heads(st.suites) + [HeadOf(e)], Nothing, st.depth > 0, origin);
    OpenAbsorbClose(st1, e, cases, own, origin);
    SuiteDocRead(st, d, e, inner, own, origin);
    AbsorbTwice(st, LocalAll(d.closed, st, origin), now, FillAll(cases, own), Now(st1));
  }

  lemma OpenCase(st: State, d: Doc, origin: string)
    requires d.open.Within? && d.open.element.tag.TestCase?
    requires Drained(Step(Closed(st, d, origin), Start(d.open.element), origin), d.open.inner, origin)
    ensures Drained(st, d, origin)
  {
    var inner := d.open.inner;
    var st1 := Closed(st, d, origin);
    var st2 := Step(st1, Start(d.open.element), origin);
    RunClosed(st, d, origin);
    AbsorbShape(st, LocalAll(d.closed, st, origin), After(st, DeclaresAll(d.closed, Now(st))));
    var cases := DocRead(inner, Heads(st.suites), Nothing, true, origin);
    DrainDepth(Absorb(st1, cases, Now(st1)), st2.depth);
    assert Absorb(st2, cases, Now(st2)) == Absorb(st1, cases, Now(st1)).(depth := st2.depth);
    AbsorbTwice(st, LocalAll(d.closed, st, origin), After(st, DeclaresAll(d.closed, Now(st))), cases, Now(st1));
  }

  lemma OpenOther(st: State, d: Doc, origin: string)
    requires d.open.Within? && !d.open.element.tag.TestCase? && !d.open.element.tag.TestSuite?
    requires Drained(Closed(st, d, origin), d.open.inner, origin)
    ensures Drained(st, d, origin)
  {
    var inner := d.open.inner;
    var st1 := Closed(st, d, origin);
    RunClosed(st, d, origin);
    AbsorbShape(st, LocalAll(d.closed, st, origin), After(st, DeclaresAll(d.closed, Now(st))));
    var cases := DocRead(inner, Heads(st.suites), Nothing, st.depth > 0, origin);
    AbsorbTwice(st, LocalAll(d.closed, st, origin), After(st, DeclaresAll(d.closed, Now(st))),
                cases, After(st1, DocDeclares(inner, Now(st1))));
  }

  lemma {:induction false} DrainDoc(st: State, d: Doc, origin: string)
    ensures Drained(st, d, origin)
    decreases d
  {
    match d.open
    case Finished =>
      RunClosed(st, d, origin);
      assert LocalAll(d.closed, st, origin) + [] == LocalAll(d.closed, st, origin);
    case Within(e, inner) =>
      DrainDoc(Step(Closed(st, d, origin), Start(e), origin), inner, origin);
      if e.tag.TestSuite? {
        OpenSuite(st, d, origin);
      } else if e.tag.TestCase? {
        OpenCase(st, d, origin);
      } else {
        OpenOther(st, d, origin);
      }
  }

  /** On every prefix of every document the machine recovers the reading of what had been written:
      every testcase that closed, with the output it captured or inherits. */
  lemma EveryPrefixIsRead(es: seq<Element>, n: nat, origin: string)
    requires n <= |EventsAll(es)|
    ensures Recovered(EventsAll(es)[..n], origin) == DocRead(Cut(es, n), [], Nothing, false, origin)
  {
    CutIsPrefix(es, n);
    DrainDoc(Initial, Cut(es, n), origin);
    assert Heads(Initial.suites) == [];
    var cases := DocRead(Cut(es, n), [], Nothing, false, origin);
    assert [] + cases == cases;
  }

  /** On a complete document that is the recursive reading of the tree. */
  lemma WholeDocumentIsRead(root: Element, origin: string)
    ensures Recovered(Events(root), origin) == Read(root, [], Nothing, false, origin)
  {
    var es := [root];
    assert es[1..] == [] && EventsAll(es) == Events(root) + [];
    CutWhole(es);
    EveryPrefixIsRead(es, |EventsAll(es)|, origin);
    assert EventsAll(es)[..|EventsAll(es)|] == Events(root);
    assert ReadAll(es, [], Nothing, false, origin) == Read(root, [], Nothing, false, origin) + [];
  }

  // ---- what is recovered, on any event stream at all ---------------------

  /** The cases whose closing tag is in the stream, in order, each built from the suites open around it. */
  function ClosedCases(es: seq<Event>, origin: string): seq<TestCaseResult> {
    if es == [] then []
    else
      var before, ev := es[..|es| - 1], es[|es| - 1];
      ClosedCases(before, origin) + Closing(ev, OpenHeads(before), origin)
  }

  function OpenHeads(es: seq<Event>): seq<SuiteHead> {
    if es == [] then []
    else
      var before, ev := OpenHeads(es[..|es| - 1]), es[|es| - 1];
      if !ev.element.tag.TestSuite? then before
      else if ev.Start? then before + [HeadOf(ev.element)]
      else if before == [] then [] else before[..|before| - 1]
  }

  /** The same case, except that missing output may have been filled in. */
  predicate Completes(full: TestCaseResult, own: TestCaseResult) {
    && full.(stdout := own.stdout, stderr := own.stderr) == own
    && (own.stdout.Some? ==> full.stdout == own.stdout)
    && (own.stderr.Some? ==> full.stderr == own.stderr)
  }

  ghost predicate CompleteAll(full: seq<TestCaseResult>, own: seq<TestCaseResult>) {
    && |full| == |own|
    && forall k :: 0 <= k < |own| ==> Completes(full[k], own[k])
  }

  /** Everything held anywhere in the machine, outermost first. */
  function Held(st: State): seq<TestCaseResult>
    decreases |st.suites|
  {
    if st.suites == [] then st.cases else Held(st.(suites := Below(st.suites))) + Top(st.suites).cases
  }

  lemma {:induction false} HeldDelivers(st: State, more: seq<TestCaseResult>)
    ensures Held(Deliver(st, more)) == Held(st) + more
  {
    if st.suites != [] {
      var r := Deliver(st, more);
      assert Below(r.suites) == Below(st.suites);
      assert Held(st.(suites := Below(st.suites))) + Top(st.suites).cases + more
        == Held(st.(suites := Below(st.suites))) + (Top(st.suites).cases + more);
    }
  }

  lemma CompletesJoin(a: seq<TestCaseResult>, b: seq<TestCaseResult>, c: seq<TestCaseResult>, d: seq<TestCaseResult>)
    requires CompleteAll(a, c) && CompleteAll(b, d)
    ensures CompleteAll(a + b, c + d)
  {
  }

  lemma {:induction false} FillCompletes(cases: seq<TestCaseResult>, captured: Captured, own: seq<TestCaseResult>)
    requires CompleteAll(cases, own)
    ensures CompleteAll(FillAll(cases, captured), own)
  {
    forall k | 0 <= k < |own| ensures Completes(FillAll(cases, captured)[k], own[k]) {
      assert Completes(cases[k], own[k]);
    }
  }

  lemma {:induction false} CompletesSplit(a: seq<TestCaseResult>, b: seq<TestCaseResult>, own: seq<TestCaseResult>)
    requires CompleteAll(a + b, own)
    ensures CompleteAll(a, own[..|a|]) && CompleteAll(b, own[|a|..])
  {
    forall k | 0 <= k < |a| ensures Completes(a[k], own[..|a|][k]) { assert Completes((a + b)[k], own[k]); }
    forall k | 0 <= k < |b| ensures Completes(b[k], own[|a|..][k]) { assert Completes((a + b)[|a| + k], own[|a| + k]); }
  }

  lemma {:induction false} FillKeepsCompleted(a: seq<TestCaseResult>, b: seq<TestCaseResult>, captured: Captured,
                                              own: seq<TestCaseResult>)
    requires CompleteAll(a + b, own)
    ensures CompleteAll(a + FillAll(b, captured), own)
  {
    CompletesSplit(a, b, own);
    FillCompletes(b, captured, own[|a|..]);
    CompletesJoin(a, FillAll(b, captured), own[..|a|], own[|a|..]);
    assert own[..|a|] + own[|a|..] == own;
  }

  lemma {:induction false} CloseKeepsHeld(st: State, own: seq<TestCaseResult>)
    requires st.suites != [] && CompleteAll(Held(st), own)
    ensures CompleteAll(Held(CloseSuite(st)), own)
  {
    var below, top := st.(suites := Below(st.suites)), Top(st.suites);
    HeldDelivers(below, FillAll(top.cases, top.captured));
    FillKeepsCompleted(Held(below), top.cases, top.captured, own);
  }

  lemma {:induction false} DrainKeepsHeld(st: State, own: seq<TestCaseResult>)
    requires CompleteAll(Held(st), own)
    ensures CompleteAll(Drain(st), own)
    decreases |st.suites|
  {
    if st.suites != [] {
      CloseKeepsHeld(st, own);
      DrainKeepsHeld(CloseSuite(st), own);
    }
  }

  lemma {:induction false} HeldAttach(st: State, e: Element)
    requires st.suites != []
    ensures Held(Attach(st, e)) == Held(st)
  {
    assert Below(Attach(st, e).suites) == Below(st.suites);
  }

  lemma HeldDepth(st: State, depth: nat)
    ensures Held(st.(depth := depth)) == Held(st)
    decreases |st.suites|
  {
    if st.suites != [] { HeldDepth(st.(suites := Below(st.suites)), depth); }
  }

  lemma StepHeads(st: State, ev: Event, origin: string, heads: seq<SuiteHead>)
    requires Heads(st.suites) == heads
    ensures Heads(Step(st, ev, origin).suites) ==
      if !ev.element.tag.TestSuite? then heads
      else if ev.Start? then heads + [HeadOf(ev.element)]
      else if heads == [] then [] else heads[..|heads| - 1]
  {
  }

  lemma StartHeld(st: State, e: Element, origin: string)
    ensures Held(Step(st, Start(e), origin)) == Held(st)
  {
    var r := Step(st, Start(e), origin);
    if e.tag.TestSuite? {
      assert Below(r.suites) == st.suites;
      assert r.(suites := st.suites) == st;
      assert Held(st) + [] == Held(st);
    } else if e.tag.TestCase? {
      HeldDepth(st, st.depth + 1);
    }
  }

  lemma CaseEndHeld(st: State, e: Element, origin: string)
    requires e.tag.TestCase?
    ensures Held(Step(st, End(e), origin)) == Held(st) + [Build(e, Heads(st.suites), origin)]
  {
    var depth := if st.depth > 0 then st.depth - 1 else 0;
    HeldDepth(st, depth);
    HeldDelivers(st.(depth := depth), [Build(e, Heads(st.suites), origin)]);
  }

  function Closing(ev: Event, heads: seq<SuiteHead>, origin: string): seq<TestCaseResult> {
    if ev.End? && ev.element.tag.TestCase? then [Build(ev.element, heads, origin)] else []
  }

  lemma StepHeld(st: State, ev: Event, origin: string, own: seq<TestCaseResult>)
    requires CompleteAll(Held(st), own)
    ensures CompleteAll(Held(Step(st, ev, origin)), own + Closing(ev, Heads(st.suites), origin))
  {
    var e := ev.element;
    assert own + [] == own;
    if ev.Start? {
      StartHeld(st, e, origin);
    } else if e.tag.TestCase? {
      var built := [Build(e, Heads(st.suites), origin)];
      CaseEndHeld(st, e, origin);
      CompletesJoin(Held(st), built, own, built);
    } else if e.tag.TestSuite? && st.suites != [] {
      CloseKeepsHeld(st, own);
    } else if (e.tag.SystemOut? || e.tag.SystemErr?) && st.suites != [] && st.depth == 0 {
      HeldAttach(st, e);
    }
  }

  lemma {:induction false} RunHeld(es: seq<Event>, origin: string)
    ensures Heads(Run(Initial, es, origin).suites) == OpenHeads(es)
    ensures CompleteAll(Held(Run(Initial, es, origin)), ClosedCases(es, origin))
  {
    if es != [] {
      var before, ev := es[..|es| - 1], es[|es| - 1];
      RunHeld(before, origin);
      StepHeads(Run(Initial, before, origin), ev, origin, OpenHeads(before));
      StepHeld(Run(Initial, before, origin), ev, origin, ClosedCases(before, origin));
    }
  }

  /** Whatever the events, the machine yields exactly the cases that closed, once each and in order,
      with the suites around them, and never replaces output a case captured itself. */
  lemma ExactlyTheClosedCases(es: seq<Event>, origin: string)
    ensures CompleteAll(Recovered(es, origin), ClosedCases(es, origin))
  {
    RunHeld(es, origin);
    DrainKeepsHeld(Run(Initial, es, origin), ClosedCases(es, origin));
  }
}

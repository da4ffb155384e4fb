/** The parsing loop over mutable suite frames, proved against the stack machine. */
module JunitParser {
  import opened Models
  import opened JunitTree
  import opened Junit

  datatype Warning = MalformedXml | NoTestcases

  class SuiteFrame {
    const name: string
    const file: Option<string>
    var stdout: Option<string>
    var stderr: Option<string>
    var cases: seq<TestCaseResult>

    constructor (name: string, file: Option<string>)
      ensures View() == Frame(SuiteHead(name, file), Nothing, [])
    {
      this.name, this.file := name, file;
      stdout, stderr, cases := None, None, [];
    }

    function View(): Frame
      reads this
    {
      Frame(SuiteHead(name, file), Captured(stdout, stderr), cases)
    }

    method AttachOutput(e: Element)
      modifies this`stdout, this`stderr
      ensures View() == old(View()).(captured :=
        if e.tag.SystemOut? then Captured(e.text, old(stderr)) else Captured(old(stdout), e.text))
    {
      if e.tag.SystemOut? {
        stdout := e.text;
      } else {
        stderr := e.text;
      }
    }

    method Extend(more: seq<TestCaseResult>)
      modifies this`cases
      ensures View() == old(View()).(cases := old(cases) + more)
    {
      cases := cases + more;
    }
  }

  /** The values of the frames, outermost first. */
  function Views(suites: seq<SuiteFrame>): (r: seq<Frame>)
    reads suites
    ensures |r| == |suites|
    ensures forall k :: 0 <= k < |suites| ==> r[k] == suites[k].View()
  {
    if suites == [] then [] else Views(suites[..|suites| - 1]) + [suites[|suites| - 1].View()]
  }

  /** No frame is on the stack twice. */
  ghost predicate Distinct(suites: seq<SuiteFrame>) {
    forall i, j :: 0 <= i < j < |suites| ==> suites[i] != suites[j]
  }

  function Frames(suites: seq<SuiteFrame>): set<SuiteFrame> { set s | s in suites }

  method BuildCase(e: Element, suites: seq<SuiteFrame>, origin: string) returns (built: TestCaseResult)
    ensures built == Build(e, Heads(Views(suites)), origin)
    ensures OutcomeIs(e.children, built.outcome)
  {
    var outcome := Pass;
    var failureType, failureMessage, stackTrace: Option<string> := None, None, None;
    var stdout: Option<string>, stderr: Option<string>, rerunObserved := None, None, false;
    for k := 0 to |e.children|
      invariant Parts(outcome, failureType, failureMessage, stackTrace, stdout, stderr, rerunObserved) ==
        PartsOf(e.children[..k])
    {
      var child := e.children[k];
      assert e.children[..k + 1][..k] == e.children[..k];
      if IsVerdict(child.tag) && outcome.Pass? {
        outcome := OutcomeOf(child.tag);
        failureType, failureMessage, stackTrace := child.kind, child.message, child.text;
      } else if child.tag.Rerun? {
        rerunObserved := true;
        if failureMessage.None? {
          failureType, failureMessage, stackTrace := child.kind, child.message, child.text;
        }
      } else if child.tag.SystemOut? {
        stdout := child.text;
      } else if child.tag.SystemErr? {
        stderr := child.text;
      }
    }
    assert e.children[..|e.children|] == e.children;
    OutcomeMeaning(e.children);
    var heads := Heads(Views(suites));
    built := TestCaseResult(
      e.name, e.classname, SuitePath(heads), OrElse(e.file, InheritedFile(heads)), e.line, e.durationMs,
      outcome, failureType, failureMessage, stackTrace, stdout, stderr, rerunObserved, origin);
  }

  /** Append to the innermost open suite, or to the result if none is open. */
  method DeliverTo(suites: seq<SuiteFrame>, cases: seq<TestCaseResult>, more: seq<TestCaseResult>, ghost depth: nat)
    returns (cases': seq<TestCaseResult>)
    requires Distinct(suites)
    modifies if suites == [] then {} else {suites[|suites| - 1]}
    ensures State(cases', Views(suites), depth) == Deliver(State(cases, old(Views(suites)), depth), more)
  {
    if suites == [] {
      cases' := cases + more;
    } else {
      cases' := cases;
      suites[|suites| - 1].Extend(more);
      ViewsSplit(suites);
    }
  }

  twostate lemma ViewsSplit(suites: seq<SuiteFrame>)
    requires suites != [] && Distinct(suites)
    requires forall k :: 0 <= k < |suites| - 1 ==> unchanged(suites[k])
    ensures Below(Views(suites)) == Below(old(Views(suites)))
  {
  }

  /** emit: resolve a closed suite's cases and hand them to the enclosing scope. */
  method Emit(suites: seq<SuiteFrame>, cases: seq<TestCaseResult>, ghost depth: nat)
    returns (suites': seq<SuiteFrame>, cases': seq<TestCaseResult>)
    requires suites != [] && Distinct(suites)
    modifies Frames(suites)
    ensures suites' == suites[..|suites| - 1]
    ensures State(cases', Views(suites'), depth) == CloseSuite(State(cases, old(Views(suites)), depth))
  {
    var frame := suites[|suites| - 1];
    suites' := suites[..|suites| - 1];
    var resolved := FillAll(frame.cases, Captured(frame.stdout, frame.stderr));
    assert Views(suites') == Below(Views(suites));
    cases' := DeliverTo(suites', cases, resolved, depth);
  }

  method OpenSuite(e: Element, suites: seq<SuiteFrame>) returns (suites': seq<SuiteFrame>)
    requires Distinct(suites)
    ensures Distinct(suites') && |suites'| == |suites| + 1 && suites'[..|suites|] == suites && fresh(suites'[|suites|])
    ensures Views(suites') == old(Views(suites)) + [Frame(HeadOf(e), Nothing, [])]
  {
    var frame := new SuiteFrame(e.name, e.file);
    suites' := suites + [frame];
    assert suites'[..|suites'| - 1] == suites;
  }

  method AttachTop(e: Element, suites: seq<SuiteFrame>, ghost cases: seq<TestCaseResult>, ghost depth: nat)
    requires suites != [] && Distinct(suites) && (e.tag.SystemOut? || e.tag.SystemErr?)
    modifies suites[|suites| - 1]
    ensures State(cases, Views(suites), depth) == Attach(State(cases, old(Views(suites)), depth), e)
  {
    suites[|suites| - 1].AttachOutput(e);
    ViewsSplit(suites);
  }

  method CloseCase(e: Element, suites: seq<SuiteFrame>, cases: seq<TestCaseResult>, depth: nat, origin: string)
    returns (cases': seq<TestCaseResult>, depth': nat)
    requires Distinct(suites) && e.tag.TestCase?
    modifies Frames(suites)
    ensures State(cases', Views(suites), depth') == Step(State(cases, old(Views(suites)), depth), End(e), origin)
  {
    depth' := if depth > 0 then depth - 1 else 0;
    var built := BuildCase(e, suites, origin);
    cases' := DeliverTo(suites, cases, [built], depth');
  }

  method HandleEnd(e: Element, suites: seq<SuiteFrame>, cases: seq<TestCaseResult>, depth: nat, origin: string)
    returns (suites': seq<SuiteFrame>, cases': seq<TestCaseResult>, depth': nat)
    requires Distinct(suites)
    modifies Frames(suites)
    ensures suites' <= suites
    ensures State(cases', Views(suites'), depth') == Step(State(cases, old(Views(suites)), depth), End(e), origin)
  {
    suites', cases', depth' := suites, cases, depth;
    if e.tag.TestCase? {
      cases', depth' := CloseCase(e, suites, cases, depth, origin);
    } else if e.tag.TestSuite? {
      if suites != [] {
        suites', cases' := Emit(suites, cases, depth);
      }
    } else if (e.tag.SystemOut? || e.tag.SystemErr?) && suites != [] && depth == 0 {
      AttachTop(e, suites, cases, depth);
    }
  }

  method HandleEvent(ev: Event, suites: seq<SuiteFrame>, cases: seq<TestCaseResult>, depth: nat, origin: string)
    returns (suites': seq<SuiteFrame>, cases': seq<TestCaseResult>, depth': nat)
    requires Distinct(suites)
    modifies Frames(suites)
    ensures Distinct(suites') && fresh(Frames(suites') - Frames(suites))
    ensures State(cases', Views(suites'), depth') == Step(State(cases, old(Views(suites)), depth), ev, origin)
  {
    if ev.End? {
      suites', cases', depth' := HandleEnd(ev.element, suites, cases, depth, origin);
      return;
    }
    suites', cases', depth' := suites, cases, depth;
    if ev.element.tag.TestSuite? {
      suites' := OpenSuite(ev.element, suites);
    } else if ev.element.tag.TestCase? {
      depth' := depth + 1;
    }
  }

  method DrainAll(suites: seq<SuiteFrame>, cases: seq<TestCaseResult>,
                  ghost depth: nat) returns (result: seq<TestCaseResult>)
    requires Distinct(suites)
    modifies Frames(suites)
    ensures result == Drain(State(cases, old(Views(suites)), depth))
  {
    var open := suites;
    result := cases;
    while open != []
      invariant open <= suites
      invariant Drain(State(result, Views(open), depth)) == Drain(State(cases, old(Views(suites)), depth))
      decreases |open|
    {
      open, result := Emit(open, result, depth);
    }
  }

  method ParseStream(events: seq<Event>, truncated: bool, origin: string)
    returns (result: seq<TestCaseResult>, warnings: seq<Warning>)
    ensures result == Recovered(events, origin)
    ensures warnings == if truncated then [MalformedXml] else if result == [] then [NoTestcases] else []
  {
    var cases: seq<TestCaseResult>, suites: seq<SuiteFrame>, caseDepth: nat := [], [], 0;
    for k := 0 to |events|
      invariant Distinct(suites) && fresh(Frames(suites))
      invariant State(cases, Views(suites), caseDepth) == Run(Initial, events[..k], origin)
    {
      assert events[..k + 1][..k] == events[..k];
      suites, cases, caseDepth := HandleEvent(events[k], suites, cases, caseDepth, origin);
    }
    assert events[..|events|] == events;
    result := DrainAll(suites, cases, caseDepth);
    warnings := if truncated then [MalformedXml] else if result == [] then [NoTestcases] else [];
  }
}

/** The element tree behind a JUnit event stream, its events, and a recursive reading of it:
    each testcase takes its own captured output, or what it inherits from the nearest enclosing
    suite that declares some. */
module JunitTree {
  import opened Models

  datatype Tag = TestSuite | TestCase | SystemOut | SystemErr | Failure | ErrorTag | Skipped | Rerun | OtherTag

  /** An element with its attributes and text already cleaned. */
  datatype Element = Element(
    tag: Tag, name: string, classname: string, file: Option<string>, kind: Option<string>, message: Option<string>,
    line: Option<int>, durationMs: Option<int>, text: Option<string>, children: seq<Element>)

  datatype Event = Start(element: Element) | End(element: Element)

  /** What a testcase needs to know of an enclosing suite. */
  datatype SuiteHead = SuiteHead(name: string, file: Option<string>)

  datatype Captured = Captured(out: Option<string>, err: Option<string>)

  const Nothing := Captured(None, None)

  // ---- one testcase ------------------------------------------------------

  datatype Parts = Parts(
    outcome: Outcome, failureType: Option<string>, failureMessage: Option<string>, stackTrace: Option<string>,
    stdout: Option<string>, stderr: Option<string>, rerunObserved: bool)

  const NoParts := Parts(Pass, None, None, None, None, None, false)

  predicate IsVerdict(tag: Tag) { tag in {Failure, ErrorTag, Skipped} }

  function OutcomeOf(tag: Tag): Outcome {
    match tag
    case Failure => Fail
    case ErrorTag => Error
    case Skipped => Skip
    case _ => Pass
  }

  /** The effect of one child on the case being built. */
  function WithChild(p: Parts, child: Element): Parts {
    if IsVerdict(child.tag) && p.outcome.Pass? then
      p.(outcome := OutcomeOf(child.tag), failureType := child.kind, failureMessage := child.message,
         stackTrace := child.text)
    else if child.tag.Rerun? then
      if p.failureMessage.None? then
        p.(rerunObserved := true, failureType := child.kind, failureMessage := child.message, stackTrace := child.text)
      else p.(rerunObserved := true)
    else if child.tag.SystemOut? then p.(stdout := child.text)
    else if child.tag.SystemErr? then p.(stderr := child.text)
    else p
  }

  function PartsOf(children: seq<Element>): Parts {
    if children == [] then NoParts
    else WithChild(PartsOf(children[..|children| - 1]), children[|children| - 1])
  }

  /** "/".join(name for name in path if name) */
  function SuitePath(path: seq<SuiteHead>): string {
    if path == [] then ""
    else
      var last, before := path[|path| - 1].name, SuitePath(path[..|path| - 1]);
      if last == "" then before else if before == "" then last else before + "/" + last
  }

  /** The file of the nearest enclosing suite that declares one. */
  function InheritedFile(path: seq<SuiteHead>): Option<string> {
    if path == [] then None
    else if path[|path| - 1].file.Some? then path[|path| - 1].file
    else InheritedFile(path[..|path| - 1])
  }

  function CaseFrom(e: Element, parts: Parts, path: seq<SuiteHead>, origin: string): TestCaseResult {
    TestCaseResult(
      e.name, e.classname, SuitePath(path), OrElse(e.file, InheritedFile(path)), e.line, e.durationMs,
      parts.outcome, parts.failureType, parts.failureMessage, parts.stackTrace,
      parts.stdout, parts.stderr, parts.rerunObserved, origin)
  }

  function Build(e: Element, path: seq<SuiteHead>, origin: string): TestCaseResult {
    CaseFrom(e, PartsOf(e.children), path, origin)
  }

  /** Child `k` is the first failure-like one. */
  ghost predicate Deciding(children: seq<Element>, k: int) {
    && 0 <= k < |children| && children[k].tag in {Failure, ErrorTag, Skipped}
    && forall i :: 0 <= i < k ==> children[i].tag !in {Failure, ErrorTag, Skipped}
  }

  ghost predicate FirstVerdict(children: seq<Element>, tag: Tag, k: int) {
    Deciding(children, k) && children[k].tag == tag
  }

  ghost predicate LastWith(children: seq<Element>, tag: Tag, k: int) {
    && 0 <= k < |children| && children[k].tag == tag
    && forall i :: k < i < |children| ==> children[i].tag != tag
  }

  lemma LastOrRest(children: seq<Element>, c: Element)
    requires children != []
    ensures c in children <==> c in children[..|children| - 1] || c == children[|children| - 1]
  {
    assert children == children[..|children| - 1] + [children[|children| - 1]];
  }

  /** A `failure` child gives FAIL, an `error` child ERROR and a `skipped` child SKIP, the first of them deciding;
      a testcase without any passed. */
  ghost predicate OutcomeIs(children: seq<Element>, outcome: Outcome) {
    && (outcome.Fail? <==> exists k :: FirstVerdict(children, Failure, k))
    && (outcome.Error? <==> exists k :: FirstVerdict(children, ErrorTag, k))
    && (outcome.Skip? <==> exists k :: FirstVerdict(children, Skipped, k))
    && (outcome.Pass? <==> forall c :: c in children ==> c.tag !in {Failure, ErrorTag, Skipped})
  }

  lemma {:induction false} DecidingStays(children: seq<Element>, k: int)
    requires children != [] && k < |children| - 1
    ensures Deciding(children, k) <==> Deciding(children[..|children| - 1], k)
  {
  }

  lemma {:induction false} SomeFirst(children: seq<Element>) returns (k: int)
    requires !(forall c :: c in children ==> c.tag !in {Failure, ErrorTag, Skipped})
    ensures Deciding(children, k)
    decreases |children|
  {
    var n := |children| - 1;
    if forall c :: c in children[..n] ==> c.tag !in {Failure, ErrorTag, Skipped} {
      k := n;
      assert children == children[..n] + [children[n]];
    } else {
      k := SomeFirst(children[..n]);
    }
  }

  lemma {:induction false} FirstDecides(children: seq<Element>, k: int)
    requires Deciding(children, k)
    ensures match children[k].tag
      case Failure => PartsOf(children).outcome == Fail
      case ErrorTag => PartsOf(children).outcome == Error
      case _ => PartsOf(children).outcome == Skip
  {
    var rest := children[..|children| - 1];
    if k < |rest| {
      DecidingStays(children, k);
      FirstDecides(rest, k);
    } else {
      NoVerdictPasses(rest);
    }
  }

  lemma {:induction false} NoVerdictPasses(children: seq<Element>)
    requires forall i :: 0 <= i < |children| ==> children[i].tag !in {Failure, ErrorTag, Skipped}
    ensures PartsOf(children).outcome.Pass?
  {
    if children != [] { NoVerdictPasses(children[..|children| - 1]); }
  }

  /** The first failure-like child decides the outcome, by its tag. */
  lemma {:induction false} OutcomeMeaning(children: seq<Element>)
    ensures OutcomeIs(children, PartsOf(children).outcome)
  {
    if forall c :: c in children ==> c.tag !in {Failure, ErrorTag, Skipped} {
      NoVerdictPasses(children);
      assert forall k :: 0 <= k < |children| ==> children[k] in children;
    } else {
      var k := SomeFirst(children);
      FirstDecides(children, k);
      assert forall l :: Deciding(children, l) ==> l == k;
      assert FirstVerdict(children, children[k].tag, k) && children[k] in children;
    }
  }

  /** Any rerun child is noticed, wherever it stands. */
  lemma {:induction false} RerunMeaning(children: seq<Element>)
    ensures PartsOf(children).rerunObserved <==> exists c :: c in children && c.tag.Rerun?
  {
    if children != [] {
      RerunMeaning(children[..|children| - 1]);
      forall c ensures c in children <==> c in children[..|children| - 1] || c == children[|children| - 1] {
        LastOrRest(children, c);
      }
    }
  }

  /** The last output child of each kind is the case's own output. */
  lemma {:induction false} OwnOutputMeaning(children: seq<Element>, k: int)
    ensures LastWith(children, SystemOut, k) ==> PartsOf(children).stdout == children[k].text
    ensures LastWith(children, SystemErr, k) ==> PartsOf(children).stderr == children[k].text
  {
    if children != [] {
      var rest := children[..|children| - 1];
      OwnOutputMeaning(rest, k);
      assert forall i :: 0 <= i < |rest| ==> rest[i] == children[i];
    }
  }

  // ---- events ------------------------------------------------------------

  function Events(e: Element): seq<Event> {
    [Start(e)] + EventsAll(e.children) + [End(e)]
  }

  function EventsAll(es: seq<Element>): seq<Event> {
    if es == [] then [] else Events(es[0]) + EventsAll(es[1..])
  }

  // ---- the reading -------------------------------------------------------

  /** The output a scope has declared for itself after `e`: the last one wins, and output inside a
      testcase or a nested suite is not the scope's own. */
  function Declares(e: Element, now: Captured): Captured {
    match e.tag
    case TestSuite => now
    case TestCase => now
    case SystemOut => DeclaresAll(e.children, now).(out := e.text)
    case SystemErr => DeclaresAll(e.children, now).(err := e.text)
    case _ => DeclaresAll(e.children, now)
  }

  function DeclaresAll(es: seq<Element>, now: Captured): Captured {
    if es == [] then now else DeclaresAll(es[1..], Declares(es[0], now))
  }

  function Inherit(own: Captured, outer: Captured): Captured {
    Captured(OrElse(own.out, outer.out), OrElse(own.err, outer.err))
  }

  function Fill(c: TestCaseResult, from: Captured): TestCaseResult {
    c.(stdout := OrElse(c.stdout, from.out), stderr := OrElse(c.stderr, from.err))
  }

  function HeadOf(e: Element): SuiteHead { SuiteHead(e.name, e.file) }

  /** The testcases of `e` in closing order, given the enclosing suites and what they declare. Output
      of a suite nested inside a testcase belongs to the testcase, so it declares nothing. */
  function Read(e: Element, path: seq<SuiteHead>, outer: Captured, inCase: bool, origin: string): seq<TestCaseResult> {
    match e.tag
    case TestSuite =>
      var own := if inCase then Nothing else DeclaresAll(e.children, Nothing);
      ReadAll(e.children, path + [HeadOf(e)], Inherit(own, outer), inCase, origin)
    case TestCase =>
      ReadAll(e.children, path, outer, true, origin) + [Fill(Build(e, path, origin), outer)]
    case _ =>
      ReadAll(e.children, path, outer, inCase, origin)
  }

  function ReadAll(es: seq<Element>, path: seq<SuiteHead>, outer: Captured, inCase: bool,
                   origin: string): seq<TestCaseResult> {
    if es == [] then [] else Read(es[0], path, outer, inCase, origin) + ReadAll(es[1..], path, outer, inCase, origin)
  }

  // ---- truncated documents -----------------------------------------------

  /** Elements that closed, then possibly one that did not. */
  datatype Doc = Doc(closed: seq<Element>, open: Pending)

  datatype Pending = Finished | Within(element: Element, inner: Doc)

  function DocEvents(d: Doc): seq<Event> {
    EventsAll(d.closed) + (match d.open case Finished => [] case Within(e, inner) => [Start(e)] + DocEvents(inner))
  }

  function DocDeclares(d: Doc, now: Captured): Captured {
    var after := DeclaresAll(d.closed, now);
    match d.open
    case Finished => after
    case Within(e, inner) => if e.tag.TestSuite? || e.tag.TestCase? then after else DocDeclares(inner, after)
  }

  /** The testcases that closed before the truncation; an unclosed suite counts what it declared by then. */
  function DocRead(d: Doc, path: seq<SuiteHead>, outer: Captured, inCase: bool, origin: string): seq<TestCaseResult> {
    ReadAll(d.closed, path, outer, inCase, origin) +
    match d.open
    case Finished => []
    case Within(e, inner) =>
      match e.tag
      case TestSuite =>
        var own := if inCase then Nothing else DocDeclares(inner, Nothing);
        DocRead(inner, path + [HeadOf(e)], Inherit(own, outer), inCase, origin)
      case TestCase => DocRead(inner, path, outer, true, origin)
      case _ => DocRead(inner, path, outer, inCase, origin)
  }

  /** The document left by the first `n` events of `es`. */
  function Cut(es: seq<Element>, n: nat): Doc {
    if es == [] || n == 0 then Doc([], Finished)
    else if n >= |Events(es[0])| then
      var d := Cut(es[1..], n - |Events(es[0])|);
      Doc([es[0]] + d.closed, d.open)
    else Doc([], Within(es[0], Cut(es[0].children, n - 1)))
  }

  lemma {:induction false} CutIsPrefix(es: seq<Element>, n: nat)
    requires n <= |EventsAll(es)|
    ensures DocEvents(Cut(es, n)) == EventsAll(es)[..n]
    decreases es
  {
    if es == [] || n == 0 {
    } else {
      var e, first, rest := es[0], Events(es[0]), EventsAll(es[1..]);
      if n >= |first| {
        CutIsPrefix(es[1..], n - |first|);
        var d := Cut(es[1..], n - |first|);
        assert ([e] + d.closed)[1..] == d.closed;
        assert EventsAll([e] + d.closed) == first + EventsAll(d.closed);
        assert (first + rest)[..n] == first + rest[..n - |first|];
      } else {
        CutIsPrefix(e.children, n - 1);
        assert (first + rest)[..n] == [Start(e)] + EventsAll(e.children)[..n - 1];
      }
    }
  }

  /** Nothing is lost by cutting after the last event. */
  lemma {:induction false} CutWhole(es: seq<Element>)
    ensures Cut(es, |EventsAll(es)|) == Doc(es, Finished)
  {
    if es != [] {
      CutWhole(es[1..]);
      assert [es[0]] + es[1..] == es;
    }
  }
}
